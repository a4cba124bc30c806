/**
 The game screen's state: which seat is ours, which seat is to act, the eight
 seat panels, the community cards, the bet spinner, the pot label, whether
 the action buttons are enabled, and the queue of commands waiting to be
 sent. Server events drive `Step`; button presses append to the queue.
 */
module GameScreen {
  import opened Wrappers
  import opened JavaInt
  import opened PlayerPanel

  const SEATS: nat := 8

  const TITLE_YOU: string := "(You)"
  const TITLE_DEALER: string := "(D)"
  const TITLE_FOLDED: string := "FOLDED"
  const TITLE_DISCONNECTED: string := "DISCONNECTED"

  /** How a chips-on-table event refines the base event. */
  datatype ChipsKind =
    | Plain                          // any other chips-on-table event (a call, say)
    | PostBlinds                     // the seat posted a blind
    | BetMade(minTotalBet: I32)      // the seat bet; the server computed the next minimum

  /** Events sent by the server; `Unrecognised` stands for any other class. */
  datatype Event =
    | NewGame(clientIndex: I32, playerNames: seq<string>, startingStack: I32, smallBlind: I32, bigBlind: I32)
    | NewMessage(message: string)
    | NewRound(dealerIndex: I32)
    | NewPlayerCard(card: Card)
    | NewCommunityCard(card: Card)
    | PlayerTurn(playerIndex: I32)
    | PlayerFold(playerIndex: I32)
    | PlayerChipsOnTable(playerIndex: I32, amount: I32, chipsRemaining: I32, totalPot: I32, kind: ChipsKind)
    | PlayerCheck(playerIndex: I32)
    | PlayerWinsChips(playerIndex: I32, amountWon: I32, remainingPot: I32)
    | GameOver(winnerIndex: I32)
    | PlayerDisconnect(playerIndex: I32)
    | Unrecognised(className: string)

  /** Commands the client sends to the server. */
  datatype Command = Fold | Check | Call | Bet(amount: I32)

  datatype Table = Table(
    playerIndex: int,
    toActIndex: int,
    seats: seq<Seat>,
    community: seq<Card>,
    betAmount: I32,
    pot: I32,
    actionsEnabled: bool,
    outbox: seq<Command>)

  predicate IsSeat(i: int) {
    0 <= i < SEATS
  }

  /**
   What the screen always maintains: eight seats, our seat is a seat, the
   seat to act is a seat or -1, and exactly the seat to act carries the marker.
   */
  predicate Valid(t: Table) {
    && |t.seats| == SEATS
    && IsSeat(t.playerIndex)
    && (t.toActIndex == -1 || IsSeat(t.toActIndex))
    && forall i :: 0 <= i < |t.seats| ==> (t.seats[i].toAct <==> i == t.toActIndex)
  }

  /** Every seat index an event carries names one of the eight panels. */
  predicate IndicesInRange(e: Event) {
    match e
    case NewGame(c, _, _, _, _) => IsSeat(c)
    case NewRound(d) => IsSeat(d)
    case PlayerTurn(i) => IsSeat(i)
    case PlayerFold(i) => IsSeat(i)
    case PlayerChipsOnTable(i, _, _, _, _) => IsSeat(i)
    case PlayerCheck(i) => IsSeat(i)
    case PlayerWinsChips(i, _, _) => IsSeat(i)
    case GameOver(w) => IsSeat(w)
    case PlayerDisconnect(i) => IsSeat(i)
    case _ => true
  }

  /** The screen as constructed, before any event. */
  function Init(): (t: Table)
    ensures Valid(t)
    ensures t.toActIndex == -1 && !t.actionsEnabled && t.outbox == []
    ensures t.betAmount == 0 && t.pot == 0
    ensures forall i :: 0 <= i < |t.seats| ==> t.seats[i].name == EMPTY_NAME && t.seats[i].chipsOnTable == 0
  {
    Table(0, -1, seq(SEATS, _ => EmptySeat()), [], 0, 0, false, [])
  }

  /** Replaces seat `i`. */
  function UpdateSeat(t: Table, i: int, p: Seat): (r: Table)
    requires 0 <= i < |t.seats|
    ensures |r.seats| == |t.seats| && r.seats[i] == p
    ensures forall j :: 0 <= j < |t.seats| && j != i ==> r.seats[j] == t.seats[j]
    ensures r.(seats := t.seats) == t
  {
    t.(seats := t.seats[i := p])
  }

  // ---------------------------------------------------------------------
  // Event handlers, one per event kind
  // ---------------------------------------------------------------------

  /**
   A new game: our seat index is taken from the event; each of the first
   min(8, names) seats is reset, renamed and given the starting stack; the
   remaining seats are untouched; our seat is titled "(You)" and the
   community cards are cleared.
   */
  function OnNewGame(t: Table, clientIndex: I32, names: seq<string>, startingStack: I32): (r: Table)
    requires Valid(t) && IsSeat(clientIndex)
    ensures Valid(r)
    ensures r.playerIndex == clientIndex && r.community == []
    ensures r.seats[clientIndex].title == TITLE_YOU
    ensures forall i :: 0 <= i < SEATS && i < |names| ==>
              && r.seats[i].name == names[i]
              && r.seats[i].chipsInStack == startingStack
              && r.seats[i].chipsOnTable == 0
              && r.seats[i].cards == []
              && (i != clientIndex ==> r.seats[i].title == "")
    ensures forall i :: |names| <= i < SEATS && i != clientIndex ==> r.seats[i] == t.seats[i]
    ensures |names| <= clientIndex ==> r.seats[clientIndex] == SetTitle(t.seats[clientIndex], TITLE_YOU)
    ensures r.toActIndex == t.toActIndex && r.betAmount == t.betAmount && r.pot == t.pot
    ensures r.actionsEnabled == t.actionsEnabled && r.outbox == t.outbox
  {
    var seats := seq(SEATS, i requires 0 <= i < SEATS =>
                   if i < |names| then SetChipsInStack(SetPlayerName(Reset(t.seats[i]), names[i]), startingStack)
                   else t.seats[i]);
    var r := t.(playerIndex := clientIndex, seats := seats, community := []);
    UpdateSeat(r, clientIndex, SetTitle(r.seats[clientIndex], TITLE_YOU))
  }

  /**
   A new round: every seat is reset (stacks kept), the community cards are
   cleared and the dealer's seat is titled "(D)".
   */
  function OnNewRound(t: Table, dealerIndex: I32): (r: Table)
    requires Valid(t) && IsSeat(dealerIndex)
    ensures Valid(r)
    ensures r.community == []
    ensures forall i :: 0 <= i < SEATS ==>
              && r.seats[i].cards == []
              && r.seats[i].chipsOnTable == 0
              && r.seats[i].chipsInStack == t.seats[i].chipsInStack
              && r.seats[i].name == t.seats[i].name
              && r.seats[i].title == (if i == dealerIndex then TITLE_DEALER else "")
    ensures r.playerIndex == t.playerIndex && r.toActIndex == t.toActIndex
    ensures r.betAmount == t.betAmount && r.pot == t.pot
    ensures r.actionsEnabled == t.actionsEnabled && r.outbox == t.outbox
  {
    var seats := seq(SEATS, i requires 0 <= i < SEATS => Reset(t.seats[i]));
    var r := t.(seats := seats, community := []);
    UpdateSeat(r, dealerIndex, SetTitle(r.seats[dealerIndex], TITLE_DEALER))
  }

  /** Our hole card is added to our own seat and nowhere else. */
  function OnNewPlayerCard(t: Table, c: Card): (r: Table)
    requires Valid(t)
    ensures Valid(r)
    ensures r.seats[t.playerIndex].cards == t.seats[t.playerIndex].cards + [c]
    ensures r.seats[t.playerIndex].(cards := t.seats[t.playerIndex].cards) == t.seats[t.playerIndex]
    ensures forall i :: 0 <= i < SEATS && i != t.playerIndex ==> r.seats[i] == t.seats[i]
    ensures r.(seats := t.seats) == t
  {
    UpdateSeat(t, t.playerIndex, AddCard(t.seats[t.playerIndex], c))
  }

  /**
   A community card starts a new street: the card is shown and every seat's
   chips-on-table is zeroed. Stacks, the bet spinner, the pot and both
   indices are unchanged.
   */
  function OnNewCommunityCard(t: Table, c: Card): (r: Table)
    requires Valid(t)
    ensures Valid(r)
    ensures r.community == t.community + [c]
    ensures forall i :: 0 <= i < SEATS ==>
              r.seats[i].chipsOnTable == 0 && r.seats[i].(chipsOnTable := t.seats[i].chipsOnTable) == t.seats[i]
    ensures r.playerIndex == t.playerIndex && r.toActIndex == t.toActIndex
    ensures r.betAmount == t.betAmount && r.pot == t.pot
    ensures r.actionsEnabled == t.actionsEnabled && r.outbox == t.outbox
  {
    var seats := seq(SEATS, i requires 0 <= i < SEATS => SetChipsOnTable(t.seats[i], 0));
    t.(seats := seats, community := t.community + [c])
  }

  /**
   The action moves to seat `index`: the previous seat to act (if any) loses
   the marker, seat `index` gets it, and the buttons are enabled exactly when
   it is our seat, whatever the prior state.
   */
  function NewPlayerTurn(t: Table, index: I32): (r: Table)
    requires Valid(t) && IsSeat(index)
    ensures Valid(r)
    ensures r.toActIndex == index
    ensures r.actionsEnabled <==> index == t.playerIndex
    ensures forall i :: 0 <= i < SEATS ==> r.seats[i] == t.seats[i].(toAct := i == index)
    ensures r.playerIndex == t.playerIndex && r.community == t.community
    ensures r.betAmount == t.betAmount && r.pot == t.pot && r.outbox == t.outbox
  {
    var t1 := if t.toActIndex >= 0 then UpdateSeat(t, t.toActIndex, SetRaisePlayer(t.seats[t.toActIndex], false)) else t;
    var t2 := t1.(toActIndex := index);
    var t3 := UpdateSeat(t2, index, SetRaisePlayer(t2.seats[index], true));
    t3.(actionsEnabled := index == t3.playerIndex)
  }

  function OnPlayerFold(t: Table, index: I32): (r: Table)
    requires Valid(t) && IsSeat(index)
    ensures Valid(r)
    ensures r.seats[index].title == TITLE_FOLDED
    ensures r.seats[index].(title := t.seats[index].title) == t.seats[index]
    ensures forall i :: 0 <= i < SEATS && i != index ==> r.seats[i] == t.seats[i]
    ensures r.(seats := t.seats) == t
  {
    UpdateSeat(t, index, SetTitle(t.seats[index], TITLE_FOLDED))
  }

  function OnPlayerDisconnect(t: Table, index: I32): (r: Table)
    requires Valid(t) && IsSeat(index)
    ensures Valid(r)
    ensures r.seats[index].title == TITLE_DISCONNECTED && r.seats[index].chipsInStack == 0
    ensures r.seats[index].(title := t.seats[index].title, chipsInStack := t.seats[index].chipsInStack) == t.seats[index]
    ensures forall i :: 0 <= i < SEATS && i != index ==> r.seats[i] == t.seats[i]
    ensures r.(seats := t.seats) == t
  {
    UpdateSeat(t, index, SetChipsInStack(SetTitle(t.seats[index], TITLE_DISCONNECTED), 0))
  }

  /** The bet the event proposes before the all-in clamp. */
  function Proposal(t: Table, amount: I32, kind: ChipsKind): I32 {
    match kind
    case Plain => t.betAmount
    case PostBlinds => Double(amount)
    case BetMade(minTotalBet) => minTotalBet
  }

  /**
   A seat put chips on the table: its on-table amount and stack are
   overwritten, the pot label shows the server's total, and the spinner is
   set to the proposed bet clamped to our own total chips, read after the
   acting seat was updated.
   */
  function OnChipsOnTable(t: Table, index: I32, amount: I32, chipsRemaining: I32, totalPot: I32, kind: ChipsKind): (r: Table)
    requires Valid(t) && IsSeat(index)
    ensures Valid(r)
    ensures r.seats[index].chipsOnTable == amount && r.seats[index].chipsInStack == chipsRemaining
    ensures r.seats[index].(chipsOnTable := t.seats[index].chipsOnTable, chipsInStack := t.seats[index].chipsInStack) == t.seats[index]
    ensures forall i :: 0 <= i < SEATS && i != index ==> r.seats[i] == t.seats[i]
    ensures r.pot == totalPot
    ensures var allIn := TotalChips(r.seats[r.playerIndex]);
            && r.betAmount <= allIn
            && r.betAmount <= Proposal(t, amount, kind)
            && (r.betAmount == allIn || r.betAmount == Proposal(t, amount, kind))
    ensures r.playerIndex == t.playerIndex && r.toActIndex == t.toActIndex && r.community == t.community
    ensures r.actionsEnabled == t.actionsEnabled && r.outbox == t.outbox
  {
    var p := SetChipsInStack(SetChipsOnTable(t.seats[index], amount), chipsRemaining);
    var t1 := UpdateSeat(t, index, p).(pot := totalPot);
    var allIn := TotalChips(t1.seats[t1.playerIndex]);
    var newBet := Proposal(t, amount, kind);
    t1.(betAmount := if newBet < allIn then newBet else allIn)
  }

  /** The winner's stack grows by the winnings; the pot label shows what is left. */
  function OnWinsChips(t: Table, index: I32, amountWon: I32, remainingPot: I32): (r: Table)
    requires Valid(t) && IsSeat(index)
    ensures Valid(r)
    ensures r.pot == remainingPot
    ensures InRange(t.seats[index].chipsInStack + amountWon) ==>
              r.seats[index].chipsInStack == t.seats[index].chipsInStack + amountWon
    ensures (r.seats[index].chipsInStack - (t.seats[index].chipsInStack + amountWon)) % MODULUS == 0
    ensures r.seats[index].(chipsInStack := t.seats[index].chipsInStack) == t.seats[index]
    ensures forall i :: 0 <= i < SEATS && i != index ==> r.seats[i] == t.seats[i]
    ensures r.(seats := t.seats, pot := t.pot) == t
  {
    UpdateSeat(t, index, AddChipsToStack(t.seats[index], amountWon)).(pot := remainingPot)
  }

  /** The whole event dispatch of the game screen. */
  function Step(t: Table, e: Event): (r: Table)
    requires Valid(t) && IndicesInRange(e)
    ensures Valid(r)
    ensures r.outbox == t.outbox
    ensures !e.NewGame? ==> r.playerIndex == t.playerIndex
    ensures !e.PlayerTurn? ==> r.toActIndex == t.toActIndex && r.actionsEnabled == t.actionsEnabled
  {
    match e
    case NewGame(c, names, stack, _, _) => OnNewGame(t, c, names, stack)
    case NewMessage(_) => t
    case NewRound(d) => OnNewRound(t, d)
    case NewPlayerCard(c) => OnNewPlayerCard(t, c)
    case NewCommunityCard(c) => OnNewCommunityCard(t, c)
    case PlayerTurn(i) => NewPlayerTurn(t, i)
    case PlayerFold(i) => OnPlayerFold(t, i)
    case PlayerChipsOnTable(i, amount, remaining, pot, kind) => OnChipsOnTable(t, i, amount, remaining, pot, kind)
    case PlayerCheck(_) => t
    case PlayerWinsChips(i, won, remaining) => OnWinsChips(t, i, won, remaining)
    case GameOver(_) => t
    case PlayerDisconnect(i) => OnPlayerDisconnect(t, i)
    case Unrecognised(_) => t
  }

  /** Events that only write to the log (or close the window) change nothing. */
  lemma InertEvents(t: Table, e: Event)
    requires Valid(t) && IndicesInRange(e)
    requires e.NewMessage? || e.PlayerCheck? || e.GameOver? || e.Unrecognised?
    ensures Step(t, e) == t
  {
  }

  /**
   The all-in clamp and where the proposal comes from, stated per kind of
   chips-on-table event. `allIn` is our total chips read after the acting
   seat was updated; when we are the acting seat it is `chipsRemaining + amount`.
   */
  lemma BetClamp(t: Table, e: Event)
    requires Valid(t) && IndicesInRange(e) && e.PlayerChipsOnTable?
    ensures var r := Step(t, e);
            var allIn := TotalChips(r.seats[t.playerIndex]);
            && (e.playerIndex == t.playerIndex ==> allIn == Add(e.chipsRemaining, e.amount))
            && (e.playerIndex != t.playerIndex ==> allIn == TotalChips(t.seats[t.playerIndex]))
            && r.betAmount <= allIn
            && (e.kind.PostBlinds? ==> r.betAmount <= Double(e.amount) && (r.betAmount == Double(e.amount) || r.betAmount == allIn))
            && (e.kind.BetMade? ==> r.betAmount <= e.kind.minTotalBet && (r.betAmount == e.kind.minTotalBet || r.betAmount == allIn))
            && (e.kind.Plain? ==> r.betAmount <= t.betAmount && (t.betAmount <= allIn ==> r.betAmount == t.betAmount))
  {
  }

  /**
   Seat 3 bets with a server minimum of 120 while we hold 80 chips in all:
   the spinner proposes 80, our all-in.
   */
  lemma AllInClampExample(t: Table)
    requires Valid(t) && t.playerIndex == 0
    requires t.seats[0].chipsInStack == 80 && t.seats[0].chipsOnTable == 0
    ensures Step(t, PlayerChipsOnTable(3, 120, 500, 200, BetMade(120))).betAmount == 80
  {
  }

  /** A posted blind of 50 proposes 100 when we can afford it. */
  lemma PostBlindsExample(t: Table)
    requires Valid(t) && t.playerIndex == 0
    requires t.seats[0].chipsInStack == 1000 && t.seats[0].chipsOnTable == 0
    ensures Step(t, PlayerChipsOnTable(2, 50, 950, 75, PostBlinds)).betAmount == 100
  {
  }

  predicate AllInRange(es: seq<Event>) {
    forall k :: 0 <= k < |es| ==> IndicesInRange(es[k])
  }

  /** Processing events in arrival order. */
  function Run(t: Table, es: seq<Event>): (r: Table)
    requires Valid(t) && AllInRange(es)
    ensures Valid(r)
    decreases |es|
  {
    if es == [] then t else Run(Step(t, es[0]), es[1..])
  }

  /** Running a concatenation is running one part after the other. */
  lemma {:induction false} RunAppend(t: Table, a: seq<Event>, b: seq<Event>)
    requires Valid(t) && AllInRange(a) && AllInRange(b)
    ensures AllInRange(a + b)
    ensures Run(t, a + b) == Run(Run(t, a), b)
    decreases |a|
  {
    assert AllInRange(a + b) by {
      forall k | 0 <= k < |a + b|
        ensures IndicesInRange((a + b)[k])
      {
        if k < |a| {
          assert (a + b)[k] == a[k];
        } else {
          assert (a + b)[k] == b[k - |a|];
        }
      }
    }
    if a == [] {
      assert a + b == b;
    } else {
      assert (a + b)[0] == a[0];
      assert (a + b)[1..] == a[1..] + b;
      RunAppend(Step(t, a[0]), a[1..], b);
    }
  }

  /** Running one more event is one more step after the run so far. */
  lemma RunSnoc(t: Table, es: seq<Event>, e: Event)
    requires Valid(t) && AllInRange(es) && IndicesInRange(e)
    ensures AllInRange(es + [e])
    ensures Run(t, es + [e]) == Step(Run(t, es), e)
  {
    RunAppend(t, es, [e]);
    assert [e][1..] == [];
  }

  /** Seats carrying the to-act marker. */
  function MarkedSeats(t: Table): set<int> {
    set i | 0 <= i < |t.seats| && t.seats[i].toAct
  }

  /**
   From the initial screen, after any event sequence, at most one seat
   carries the to-act marker, and it is the seat `toActIndex` names.
   */
  lemma {:induction false} AtMostOneMarker(es: seq<Event>)
    requires AllInRange(es)
    ensures var r := Run(Init(), es);
            && (r.toActIndex == -1 ==> MarkedSeats(r) == {})
            && (r.toActIndex != -1 ==> MarkedSeats(r) == {r.toActIndex})
  {
  }

  /**
   The pot the server reported last in `es`, or `before` when no event of
   `es` reports one. Only chips-on-table and wins-chips events report a pot.
   */
  function LastReportedPot(es: seq<Event>, before: I32): I32
    decreases |es|
  {
    if es == [] then before
    else match es[|es| - 1]
      case PlayerChipsOnTable(_, _, _, totalPot, _) => totalPot
      case PlayerWinsChips(_, _, remainingPot) => remainingPot
      case _ => LastReportedPot(es[..|es| - 1], before)
  }

  /**
   The pot is never summed locally: after any event sequence it is the
   figure the server reported last.
   */
  lemma {:induction false} PotIsLastReported(t: Table, es: seq<Event>)
    requires Valid(t) && AllInRange(es)
    ensures Run(t, es).pot == LastReportedPot(es, t.pot)
    decreases |es|
  {
    if es != [] {
      var front := es[..|es| - 1];
      var e := es[|es| - 1];
      assert es == front + [e];
      assert AllInRange(front) by {
        forall k | 0 <= k < |front| ensures IndicesInRange(front[k]) {
          assert front[k] == es[k];
        }
      }
      assert AllInRange([e]) by {
        assert [e][0] == es[|es| - 1];
      }
      RunAppend(t, front, [e]);
      PotIsLastReported(t, front);
      assert Run(Run(t, front), [e]) == Step(Run(t, front), e);
    }
  }

  /** Outside new-game events, our seat index never moves. */
  lemma {:induction false} PlayerIndexStable(t: Table, es: seq<Event>)
    requires Valid(t) && AllInRange(es)
    requires forall k :: 0 <= k < |es| ==> !es[k].NewGame?
    ensures Run(t, es).playerIndex == t.playerIndex
    decreases |es|
  {
    if es != [] {
      PlayerIndexStable(Step(t, es[0]), es[1..]);
    }
  }

  /** Server events never add to or take from the outgoing command queue. */
  lemma {:induction false} RunKeepsOutbox(t: Table, es: seq<Event>)
    requires Valid(t) && AllInRange(es)
    ensures Run(t, es).outbox == t.outbox
    decreases |es|
  {
    if es != [] {
      RunKeepsOutbox(Step(t, es[0]), es[1..]);
    }
  }

  // ---------------------------------------------------------------------
  // Buttons and the outgoing command queue
  // ---------------------------------------------------------------------

  /** Appends a command at the tail of the queue; nothing else changes. */
  function SendCommand(t: Table, c: Command): (r: Table)
    ensures |r.outbox| == |t.outbox| + 1
    ensures r.outbox[..|t.outbox|] == t.outbox && r.outbox[|t.outbox|] == c
    ensures r.(outbox := t.outbox) == t
  {
    t.(outbox := t.outbox + [c])
  }

  function ClickFold(t: Table): Table { SendCommand(t, Fold) }
  function ClickCheck(t: Table): Table { SendCommand(t, Check) }
  function ClickCall(t: Table): Table { SendCommand(t, Call) }

  /** A bet carries the amount the spinner shows at the moment of the click. */
  function ClickBet(t: Table): Table { SendCommand(t, Bet(t.betAmount)) }

  /** Max Bet puts our total chips (stack plus on-table) into the spinner. */
  function ClickMaxBet(t: Table): (r: Table)
    requires Valid(t)
    ensures InRange(t.seats[t.playerIndex].chipsInStack + t.seats[t.playerIndex].chipsOnTable) ==>
              r.betAmount == t.seats[t.playerIndex].chipsInStack + t.seats[t.playerIndex].chipsOnTable
    ensures (r.betAmount - (t.seats[t.playerIndex].chipsInStack + t.seats[t.playerIndex].chipsOnTable)) % MODULUS == 0
    ensures r.(betAmount := t.betAmount) == t
  {
    t.(betAmount := TotalChips(t.seats[t.playerIndex]))
  }

  /** The five action buttons. */
  datatype Button = FoldButton | CheckButton | CallButton | BetButton | MaxBetButton

  /** The command a button queues, if it queues one. */
  function CommandOf(t: Table, b: Button): Option<Command> {
    match b
    case FoldButton => Some(Fold)
    case CheckButton => Some(Check)
    case CallButton => Some(Call)
    case BetButton => Some(Bet(t.betAmount))
    case MaxBetButton => None
  }

  /**
   A press on a button. All five buttons are disabled together while it is
   not our turn, and a disabled button does nothing.
   */
  function Press(t: Table, b: Button): (r: Table)
    requires Valid(t)
    ensures !t.actionsEnabled ==> r == t
    ensures t.actionsEnabled && CommandOf(t, b).Some? ==> r.outbox == t.outbox + [CommandOf(t, b).value]
    ensures CommandOf(t, b).Some? ==> r.(outbox := t.outbox) == t
    ensures b == MaxBetButton ==> r.outbox == t.outbox
    ensures t.actionsEnabled && b == MaxBetButton ==> r == ClickMaxBet(t)
  {
    if !t.actionsEnabled then t
    else match b
      case FoldButton => ClickFold(t)
      case CheckButton => ClickCheck(t)
      case CallButton => ClickCall(t)
      case BetButton => ClickBet(t)
      case MaxBetButton => ClickMaxBet(t)
  }

  /** Removes and returns the oldest queued command, or none when empty. */
  function NextCommand(t: Table): (r: (Option<Command>, Table))
    ensures t.outbox == [] ==> r.0 == None && r.1 == t
    ensures t.outbox != [] ==> r.0 == Some(t.outbox[0]) && [t.outbox[0]] + r.1.outbox == t.outbox
    ensures r.1.(outbox := t.outbox) == t
  {
    if t.outbox == [] then (None, t) else (Some(t.outbox[0]), t.(outbox := t.outbox[1..]))
  }

  /** Everything `NextCommand` yields when called until the queue is empty. */
  function Drain(t: Table): seq<Command>
    decreases |t.outbox|
  {
    match NextCommand(t)
    case (None, _) => []
    case (Some(c), t') => [c] + Drain(t')
  }

  /** Commands queued one after another, as a series of clicks queues them. */
  function SendAll(t: Table, cs: seq<Command>): Table
    decreases |cs|
  {
    if cs == [] then t else SendAll(SendCommand(t, cs[0]), cs[1..])
  }

  /** Dequeueing yields exactly the queued commands, oldest first. */
  lemma {:induction false} DrainIsQueue(t: Table)
    ensures Drain(t) == t.outbox
    decreases |t.outbox|
  {
    if t.outbox != [] {
      DrainIsQueue(NextCommand(t).1);
    }
  }

  /**
   FIFO: after a series of clicks, the sender dequeues what was queued
   before, then one command per click in click order.
   */
  lemma {:induction false} ClicksAreFifo(t: Table, cs: seq<Command>)
    ensures Drain(SendAll(t, cs)) == t.outbox + cs
    decreases |cs|
  {
    if cs == [] {
      DrainIsQueue(t);
    } else {
      ClicksAreFifo(SendCommand(t, cs[0]), cs[1..]);
      assert (t.outbox + [cs[0]]) + cs[1..] == t.outbox + cs;
    }
  }
}
