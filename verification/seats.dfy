/**
 One seat at the table, as the client's seat panel holds it: the player's
 name, a status title, the chips in the stack and on the table, the hole
 cards shown, and whether the seat carries the "to act" marker. Colours and
 borders are reduced to the marker flag.
 */
module PlayerPanel {
  import opened JavaInt
  import opened Text

  /** A playing card. The client never inspects cards, so they are opaque. */
  datatype Card = Card(code: int)

  datatype Seat = Seat(
    name: string,
    title: string,
    chipsInStack: I32,
    chipsOnTable: I32,
    cards: seq<Card>,
    toAct: bool)

  const EMPTY_NAME: string := "Empty"

  /** A freshly constructed seat panel showing `name`. */
  function NewSeat(name: string): (p: Seat)
    ensures p.name == name
    ensures p.chipsOnTable == 0 && p.chipsInStack == 0
    ensures p.title == "" && p.cards == [] && !p.toAct
  {
    Seat(name, "", 0, 0, [], false)
  }

  /** The no-argument seat panel: an unoccupied seat named "Empty". */
  function EmptySeat(): (p: Seat)
    ensures p.name == EMPTY_NAME && p.chipsOnTable == 0
  {
    NewSeat(EMPTY_NAME)
  }

  function SetTitle(p: Seat, title: string): (q: Seat)
    ensures q.title == title
    ensures q.(title := p.title) == p
  {
    p.(title := title)
  }

  function SetChipsInStack(p: Seat, chips: I32): (q: Seat)
    ensures q.chipsInStack == chips
    ensures q.(chipsInStack := p.chipsInStack) == p
  {
    p.(chipsInStack := chips)
  }

  function SetChipsOnTable(p: Seat, chips: I32): (q: Seat)
    ensures q.chipsOnTable == chips
    ensures q.(chipsOnTable := p.chipsOnTable) == p
  {
    p.(chipsOnTable := chips)
  }

  function SetPlayerName(p: Seat, name: string): (q: Seat)
    ensures q.name == name
    ensures q.(name := p.name) == p
  {
    p.(name := name)
  }

  function SetRaisePlayer(p: Seat, raise: bool): (q: Seat)
    ensures q.toAct == raise
    ensures q.(toAct := p.toAct) == p
  {
    p.(toAct := raise)
  }

  /** Shows one more card; the client does not reorder or deduplicate. */
  function AddCard(p: Seat, c: Card): (q: Seat)
    ensures |q.cards| == |p.cards| + 1 && q.cards[..|p.cards|] == p.cards
    ensures q.cards[|p.cards|] == c
    ensures q.(cards := p.cards) == p
  {
    p.(cards := p.cards + [c])
  }

  function ClearCards(p: Seat): (q: Seat)
    ensures q.cards == []
    ensures q.(cards := p.cards) == p
  {
    p.(cards := [])
  }

  /**
   Start-of-round reset: cards cleared, nothing on the table, no title.
   The stack, the name and the to-act marker survive.
   */
  function Reset(p: Seat): (q: Seat)
    ensures q.cards == [] && q.chipsOnTable == 0 && q.title == ""
    ensures q.chipsInStack == p.chipsInStack && q.name == p.name && q.toAct == p.toAct
  {
    SetTitle(SetChipsOnTable(ClearCards(p), 0), "")
  }

  /** Java `chipsInStack + chips`, stored as the new stack. */
  function AddChipsToStack(p: Seat, chips: I32): (q: Seat)
    ensures InRange(p.chipsInStack + chips) ==> q.chipsInStack == p.chipsInStack + chips
    ensures (q.chipsInStack - (p.chipsInStack + chips)) % MODULUS == 0
    ensures q.(chipsInStack := p.chipsInStack) == p
  {
    SetChipsInStack(p, Add(p.chipsInStack, chips))
  }

  /** Java `chipsInStack + chipsOnTable`: the chips the player still controls. */
  function TotalChips(p: Seat): (r: I32)
    ensures InRange(p.chipsInStack + p.chipsOnTable) ==> r == p.chipsInStack + p.chipsOnTable
    ensures (r - (p.chipsInStack + p.chipsOnTable)) % MODULUS == 0
  {
    Add(p.chipsInStack, p.chipsOnTable)
  }

  /** Text of the on-table label: the amount when positive, else blank. */
  function OnTableLabel(p: Seat): (s: string)
    ensures p.chipsOnTable > 0 <==> s != ""
    ensures p.chipsOnTable > 0 ==>
              (forall i :: 0 <= i < |s| ==> IsDigit(s[i])) && s[0] != '0'
  {
    if p.chipsOnTable > 0 then Decimal(p.chipsOnTable) else ""
  }

  /** The label of a positive amount reads back as that amount. */
  lemma OnTableLabelReadsBack(p: Seat)
    requires p.chipsOnTable > 0
    ensures DigitsValue(OnTableLabel(p)) == p.chipsOnTable
  {
    DecimalRoundTrip(p.chipsOnTable);
  }

  /** Taking back chips that were added restores the seat exactly. */
  lemma AddChipsToStackInverse(p: Seat, chips: I32)
    requires chips != MIN
    ensures AddChipsToStack(AddChipsToStack(p, chips), -chips) == p
  {
  }

  /** Resetting twice is the same as resetting once. */
  lemma ResetIdempotent(p: Seat)
    ensures Reset(Reset(p)) == Reset(p)
  {
  }

  /** After a reset every chip the player controls is in the stack. */
  lemma ResetTotalIsStack(p: Seat)
    ensures TotalChips(Reset(p)) == p.chipsInStack
  {
  }
}
