# Poker client game-state engine, modelled in Dafny

This project models the client side of a networked Texas hold'em game. The
Swing widgets are reduced to plain fields. There are seven modules: the four
below, which follow the Java classes, and three small support modules.

- `PlayerPanel` (`seats.dfy`) holds one seat: name, title, chips in the stack
  and on the table, hole cards, and the "to act" marker. It also has the small
  operations the game screen calls on a seat: reset, the setters,
  add-to-stack, total chips, and the on-table label.
- `GameScreen` (`table.dfy`) holds the table state. That is our seat index,
  the seat to act, eight seats, the community cards, the bet spinner, the
  pot label, the enabled flag of the action buttons, and the outgoing command
  queue. `Step` is the event dispatch of `receiveEvent`, with one handler per
  event kind. The button handlers append to the queue, and `NextCommand`
  takes the oldest command from it.
- `PokerClient` (`session.dfy`) covers the network side:
  - the text handshake and the constructor that announces our name;
  - the receive loop, which dispatches server events until game over or a
    read failure;
  - the sender loop, which writes one command per dequeued command.
- `ClientLauncher` (`launcher.dfy`) is the connection form. Its three checks
  run in order (name length, host, port), and then the connection attempt.
- `Wrappers`, `JavaInt` and `Text` (`prelude.dfy`) are helpers:
  - `Option` and `Result`;
  - Java's 32-bit `int` with explicit wrap-around;
  - the `String` operations the client uses. These are `startsWith`,
    `replace(target, "")`, and printing an `int` in decimal.

Chip counts and indices are Java `int`s. Three places can overflow, and each
one wraps explicitly: `chipsInStack + chips`, `chipsInStack + chipsOnTable`,
and the post-blinds proposal `amount * 2`.

The socket is replaced by a `PokerClient.Link`, which gives:
- the reply lines the server sends;
- how many writes succeed before the connection fails;
- the message of the I/O exception raised when one does.

A read past the last reply fails, as reading a closed stream does. The
receive loop takes a sequence of reads, each either an event or a failure.
Concurrency is modelled as interleavings of clicks and sender cycles.

What the code does, and does not do:
- The code keeps no running pot, current bet, call amount or `minBet` field.
  The pot label is overwritten with the server's `totalPot` or
  `remainingPot`, and the only bet state is the spinner value.
- `NewRound` and `NewCommunityCard` do not touch the spinner or the pot.
  `PlayerTurn` does not re-apply a bet floor.
- The handshake requires the server greeting to start with
  "Hello from PokerServer", not with an arbitrary host id.
- A rejection reason is the reply with every occurrence of "No: " deleted
  (Java `String.replace`), not just the leading prefix. So "No: No: x"
  gives the reason "x" (`PokerClient.RejectionRemovesEveryOccurrence`).
- The seat title starts out as a Java `null`, shown as an empty label. No
  code ever reads the title back, so the model starts it as "".

## Model

| member | source | states |
|---|---|---|
| `PlayerPanel.NewSeat` | src/io/github/jezdawgz/poker/client/PlayerPanel.java:57-86 | a new seat shows the given name, has nothing on the table or in the stack, no title, no cards, and no marker |
| `PlayerPanel.EmptySeat` | src/io/github/jezdawgz/poker/client/PlayerPanel.java:52-55 | the default seat is named "Empty" and has chipsOnTable 0 |
| `PlayerPanel.Reset` | src/io/github/jezdawgz/poker/client/PlayerPanel.java:88-93 | clears the cards, zeroes chipsOnTable and blanks the title; stack, name and marker are kept |
| `PlayerPanel.ResetIdempotent` | src/io/github/jezdawgz/poker/client/PlayerPanel.java:88-93 | a second reset changes nothing |
| `PlayerPanel.ResetTotalIsStack` | src/io/github/jezdawgz/poker/client/PlayerPanel.java:159-162 | after a reset the seat's total chips are exactly its stack |
| `PlayerPanel.SetTitle` | src/io/github/jezdawgz/poker/client/PlayerPanel.java:126-130 | sets the title and changes no other field |
| `PlayerPanel.SetChipsInStack` | src/io/github/jezdawgz/poker/client/PlayerPanel.java:142-146 | sets the stack and changes no other field |
| `PlayerPanel.SetChipsOnTable` | src/io/github/jezdawgz/poker/client/PlayerPanel.java:148-152 | sets the on-table chips and changes no other field |
| `PlayerPanel.SetPlayerName` | src/io/github/jezdawgz/poker/client/PlayerPanel.java:164-169 | sets the name and changes no other field |
| `PlayerPanel.SetRaisePlayer` | src/io/github/jezdawgz/poker/client/PlayerPanel.java:95-105 | sets or clears the to-act marker and changes no other field |
| `PlayerPanel.AddCard` | src/io/github/jezdawgz/poker/client/PlayerPanel.java:176-179 | the card is appended after the cards already shown; nothing else changes |
| `PlayerPanel.AddChipsToStack` | src/io/github/jezdawgz/poker/client/PlayerPanel.java:132-135 | the new stack is old stack + chips (congruent mod 2^32, and equal when in int range); no other field changes |
| `PlayerPanel.AddChipsToStackInverse` | src/io/github/jezdawgz/poker/client/PlayerPanel.java:132-135 | adding chips and then their negation restores the seat exactly, overflow or not |
| `PlayerPanel.TotalChips` | src/io/github/jezdawgz/poker/client/PlayerPanel.java:159-162 | equals chipsInStack + chipsOnTable whenever that sum is an int (and is congruent to it mod 2^32 always) |
| `PlayerPanel.OnTableLabel` | src/io/github/jezdawgz/poker/client/PlayerPanel.java:151 | the text `setChipsOnTable` writes into the on-table label: non-empty exactly when chipsOnTable > 0, and then decimal digits without a leading zero |
| `PlayerPanel.OnTableLabelReadsBack` | src/io/github/jezdawgz/poker/client/PlayerPanel.java:151 | a positive amount's label reads back as that amount |
| `JavaInt.Add` | src/io/github/jezdawgz/poker/client/PlayerPanel.java:161 | Java int addition: the true sum when in range, otherwise the sum shifted by 2^32 |
| `JavaInt.Double` | src/io/github/jezdawgz/poker/client/GameScreen.java:237 | Java `amount*2`: the true product when in range, otherwise shifted by 2^32 |
| `JavaInt.AddInverse` | src/io/github/jezdawgz/poker/client/PlayerPanel.java:134 | wrapped addition of b and then -b gives back the start value |
| `Text.RemoveAllLength` | src/io/github/jezdawgz/poker/client/PokerClient.java:131 | `replace(target, "")` never lengthens the string |
| `Text.RemoveAllChars` | src/io/github/jezdawgz/poker/client/PokerClient.java:131 | every character of the result occurs in the input (multiset inclusion) |
| `Text.RemoveAllNoOccurrence` | src/io/github/jezdawgz/poker/client/PokerClient.java:131 | a string without the target is returned unchanged |
| `Text.RemoveAllShortens` | src/io/github/jezdawgz/poker/client/PokerClient.java:130-131 | a string holding the target at any position loses at least one whole copy of it, so `replace` shortens it by at least the target's length |
| `Text.Decimal` | src/io/github/jezdawgz/poker/client/PlayerPanel.java:151 | printing a non-negative int gives a non-empty digit string, with no leading zero when positive |
| `Text.DecimalRoundTrip` | src/io/github/jezdawgz/poker/client/PlayerPanel.java:151 | the printed digits read back as the printed number |
| `GameScreen.Init` | src/io/github/jezdawgz/poker/client/GameScreen.java:47-61 | the new screen is valid; no seat is to act; buttons are disabled; the queue is empty; spinner and pot are 0; every seat is "Empty" with nothing on the table |
| `GameScreen.OnNewGame` | src/io/github/jezdawgz/poker/client/GameScreen.java:150-168 | our index becomes clientIndex; seats below min(8, names) are reset with their name and the starting stack; the other seats are untouched; our seat is titled "(You)"; community cards are cleared; nothing else changes |
| `GameScreen.OnNewRound` | src/io/github/jezdawgz/poker/client/GameScreen.java:176-190 | every seat loses its cards, on-table chips and title while stacks and names are kept; the dealer is titled "(D)"; community cards are cleared; nothing else changes |
| `GameScreen.OnNewPlayerCard` | src/io/github/jezdawgz/poker/client/GameScreen.java:192-197 | the card is appended to our own seat only |
| `GameScreen.OnNewCommunityCard` | src/io/github/jezdawgz/poker/client/GameScreen.java:199-210 | the card is appended to the community cards; every seat's on-table chips become 0 and nothing else of the seat changes; stacks, spinner, pot and both indices are unchanged |
| `GameScreen.NewPlayerTurn` | src/io/github/jezdawgz/poker/client/GameScreen.java:116-136 | toActIndex becomes i; exactly seat i carries the marker; buttons are enabled iff i is our seat, whatever the prior state |
| `GameScreen.OnPlayerFold` | src/io/github/jezdawgz/poker/client/GameScreen.java:77-81 | only that seat's title changes, to "FOLDED" |
| `GameScreen.OnPlayerDisconnect` | src/io/github/jezdawgz/poker/client/GameScreen.java:83-88 | that seat is titled "DISCONNECTED" with stack 0; nothing else changes |
| `GameScreen.OnChipsOnTable` | src/io/github/jezdawgz/poker/client/GameScreen.java:222-247 | the acting seat's on-table and stack are overwritten and the pot shows totalPot; the spinner is the minimum of the proposal and our total chips, read after the update |
| `GameScreen.BetClamp` | src/io/github/jezdawgz/poker/client/GameScreen.java:224-246 | the clamp bound is chipsRemaining + amount when we act, else our unchanged total; blinds propose 2 x amount, bets propose minTotalBet, and plain events keep or lower the spinner |
| `GameScreen.AllInClampExample` | src/io/github/jezdawgz/poker/client/GameScreen.java:239-246 | a bet with minimum 120 while we hold 80 sets the spinner to 80 |
| `GameScreen.PostBlindsExample` | src/io/github/jezdawgz/poker/client/GameScreen.java:234-246 | a posted blind of 50 proposes 100 when we hold 1000 |
| `GameScreen.OnWinsChips` | src/io/github/jezdawgz/poker/client/GameScreen.java:254-266 | the winner's stack grows by amountWon, wrapping modulo 2^32 on int overflow; the pot shows remainingPot; nothing else changes |
| `GameScreen.Step` | src/io/github/jezdawgz/poker/client/GameScreen.java:148-289 | every event keeps the screen valid and leaves the queue alone; only NewGame moves our index, and only PlayerTurn moves the seat to act or the buttons |
| `GameScreen.InertEvents` | src/io/github/jezdawgz/poker/client/GameScreen.java:284-287 | message, check, game-over and unrecognised events change no field |
| `GameScreen.Run` | src/io/github/jezdawgz/poker/client/GameScreen.java:148-289 | processing any in-range event sequence keeps the screen valid |
| `GameScreen.RunAppend` | src/io/github/jezdawgz/poker/client/GameScreen.java:148-289 | the screen has no memory beyond its state: handling two batches one after the other equals handling their concatenation |
| `GameScreen.AtMostOneMarker` | src/io/github/jezdawgz/poker/client/GameScreen.java:116-136 | from the initial screen, after any events, the marked seats are exactly {toActIndex}, or none when it is -1 |
| `GameScreen.PotIsLastReported` | src/io/github/jezdawgz/poker/client/GameScreen.java:138-141 | after any events, the pot is the figure the server reported last, never a local sum |
| `GameScreen.PlayerIndexStable` | src/io/github/jezdawgz/poker/client/GameScreen.java:153 | with no NewGame in the sequence, our seat index never changes |
| `GameScreen.RunKeepsOutbox` | src/io/github/jezdawgz/poker/client/GameScreen.java:148-289 | server events never touch the outgoing queue |
| `GameScreen.SendCommand` | src/io/github/jezdawgz/poker/client/GameScreen.java:90-93 | exactly one command is appended at the tail; nothing else changes |
| `GameScreen.ClickMaxBet` | src/io/github/jezdawgz/poker/client/GameScreen.java:506-508 | the spinner becomes our stack + on-table, wrapping modulo 2^32 on int overflow; nothing else changes |
| `GameScreen.Press` | src/io/github/jezdawgz/poker/client/GameScreen.java:95-113 | a press while disabled does nothing; Fold, Check, Call and Bet each queue one command at the tail, and Bet carries the spinner value; Max Bet queues nothing and only sets the spinner to our total chips |
| `GameScreen.NextCommand` | src/io/github/jezdawgz/poker/client/GameScreen.java:64-67 | gives none and no change on an empty queue; otherwise gives the oldest command and removes exactly it |
| `GameScreen.DrainIsQueue` | src/io/github/jezdawgz/poker/client/GameScreen.java:64-67 | repeated dequeueing yields the queue's contents in order |
| `GameScreen.ClicksAreFifo` | src/io/github/jezdawgz/poker/client/GameScreen.java:90-93 | after a series of clicks, draining yields the earlier queue followed by the clicked commands in order |
| `PokerClient.RejectionReason` | src/io/github/jezdawgz/poker/client/PokerClient.java:130-131 | a reply not starting with "No: " is kept as is; one starting with it has every "No: " deleted and is at least four characters shorter; never longer than the reply |
| `PokerClient.Handshake` | src/io/github/jezdawgz/poker/client/PokerClient.java:110-141 | the lines written are a prefix of [greeting, "Can I join?"] bounded by the writes the link accepts; nothing is written iff no write succeeds; both lines are written exactly when two writes succeed and the greeting reply is good, whether or not the join then succeeds; joining means both lines were written |
| `PokerClient.GreetingFirst` | src/io/github/jezdawgz/poker/client/PokerClient.java:114-115 | the first line written is exactly "Hello from PokerClient 0.9.1" |
| `PokerClient.HandshakeJoinsIff` | src/io/github/jezdawgz/poker/client/PokerClient.java:117-134 | the handshake succeeds iff both writes succeed, both replies arrive, the first starts with "Hello from PokerServer", and the second starts with "Yes" |
| `PokerClient.BadGreetingStops` | src/io/github/jezdawgz/poker/client/PokerClient.java:117-123 | a wrong greeting fails with the "Expected ... but got ..." message, and "Can I join?" is never written |
| `PokerClient.RejectedJoin` | src/io/github/jezdawgz/poker/client/PokerClient.java:126-133 | any other second reply fails with "Connection rejected: " plus the reply, with "No: " removed throughout when it leads |
| `PokerClient.IoFailureMessage` | src/io/github/jezdawgz/poker/client/PokerClient.java:112-140 | an I/O failure at any of the four steps (greeting written, greeting reply read, join request written, join reply read) fails with "Handshake failed" |
| `PokerClient.RejectionReasonExample` | src/io/github/jezdawgz/poker/client/PokerClient.java:130-131 | "No: table full" gives the reason "table full" |
| `PokerClient.RejectionExample` | src/io/github/jezdawgz/poker/client/PokerClient.java:126-133 | a server greeting followed by "No: table full" fails with "Connection rejected: table full" |
| `PokerClient.RejectionRemovesEveryOccurrence` | src/io/github/jezdawgz/poker/client/PokerClient.java:131 | "No: No: x" gives the reason "x": every occurrence is removed, not only the prefix |
| `PokerClient.Connect` | src/io/github/jezdawgz/poker/client/PokerClient.java:97-105 | success iff the handshake joins and a third write succeeds; then the name is sent once as a message, after the two lines; a handshake failure is reported as "Handshake failed: " + its message, and a failed name write as "Handshake failed: " + the I/O message; on any failure exactly the handshake lines were written |
| `PokerClient.ReadEvents` | src/io/github/jezdawgz/poker/client/PokerClient.java:153-174 | the events read are a prefix of the reads, in order, ending at the first GameOver (included) or before the first failed read; when every reached event names seats in range, so do all events read |
| `PokerClient.DispatchAll` | src/io/github/jezdawgz/poker/client/GameScreen.java:148-289 | handing the events to the screen one by one, in order, leaves the screen at the run of exactly those events |
| `PokerClient.ReceiveLoop` | src/io/github/jezdawgz/poker/client/PokerClient.java:153-174 | each event read is dispatched once, in arrival order, and the screen is the run of exactly those events; the loop stops after the first GameOver, or at a read failure with nothing dispatched for it, and otherwise only when the reads run out; only the events it reaches must name seats in range |
| `PokerClient.SenderLoop` | src/io/github/jezdawgz/poker/client/PokerClient.java:203-228 | writes only dequeued commands, one per command, in queue order; the rest of the screen is unchanged; the loop crashes iff a write fails, and then the command being written is lost |
| `PokerClient.InterleaveStepIsQueue` | src/io/github/jezdawgz/poker/client/PokerClient.java:203-218 | one click of the interleaving is `SendCommand` on the screen's queue, and one sender cycle writes what `NextCommand` polls and leaves the rest queued |
| `PokerClient.InterleaveKeepsOrder` | src/io/github/jezdawgz/poker/client/PokerClient.java:203-218 | under any interleaving of clicks and sender cycles, written commands followed by queued ones are the old queue followed by the clicks, in order |
| `ClientLauncher.DefaultForm` | src/io/github/jezdawgz/poker/client/ClientLauncher.java:96-113 | the form opens with name "Unnamed", host "localhost" and port 3232 |
| `ClientLauncher.Validate` | src/io/github/jezdawgz/poker/client/ClientLauncher.java:172-191 | accepts iff the name has 3..10 characters, the host is non-empty and the port is a non-negative Integer; the name is checked first, then the host, then the port, and the first failure decides the error |
| `ClientLauncher.DefaultsPass` | src/io/github/jezdawgz/poker/client/ClientLauncher.java:96-113 | the default form passes all three checks |
| `ClientLauncher.PressConnect` | src/io/github/jezdawgz/poker/client/ClientLauncher.java:172-210 | a refused form shows its error dialog (title and message), stays open and writes nothing; a port above 65535 passes the checks but ends the press with no dialog, the form open and nothing written; a socket that does not open shows "Connection failed!" and writes nothing; otherwise the lines written are those of the client constructor; the form is hidden after any attempt; the client starts iff the socket opens and the handshake succeeds; a failed handshake shows "Error connecting: " + its message |
| `ClientLauncher.LargePortUnanswered` | src/io/github/jezdawgz/poker/client/ClientLauncher.java:187-209 | port 70000 passes every check, yet the press shows no dialog, starts no client and leaves the form open |
| `ClientLauncher.ValidateChecked` | src/io/github/jezdawgz/poker/client/ClientLauncher.java:187-191 | the port check bounded by 65535 as well: accepts iff name, host and a port in 0..65535 pass, in the same order |
| `ClientLauncher.PressConnectChecked` | src/io/github/jezdawgz/poker/client/ClientLauncher.java:172-210 | with the bounded check, a refused form shows its error and stays open, and an accepted one behaves as `PressConnect` |
| `ClientLauncher.CheckedConnectAlwaysAnswers` | src/io/github/jezdawgz/poker/client/ClientLauncher.java:172-210 | with the bounded check every press ends in an error dialog or a started client, and the form stays open exactly when the checks refuse it |

## Left out

- Rendering is not modelled. This covers layout, borders, colours, the
  highlight of our own seat, beeps, dialog icons and placement,
  and the timestamped log. Closing the window on GameOver is left out too.
  `GameOver` therefore changes no field.
- The starting-stack and blinds labels are not modelled. `NewGame` only
  appends text to them, and nothing reads them back.
- Cards are opaque values. `CardHolder` wraps a card set from a server
  package that is not part of this model, so the model appends cards to a
  sequence with no ordering or deduplication.
- Socket streams are not modelled. This covers `ObjectOutputStream` and
  `ObjectInputStream`, the `writeUTF` framing, and the stream-header
  exchange that raises "Client initialisation failed!". Lines and objects
  are modelled as values.
- Threads are not modelled: no polling sleep, no interruption ending the
  sender, and no unsynchronised list shared between threads. The queue is a
  sequential FIFO, and concurrency is modelled as interleavings of clicks
  and sender cycles.
- Out-of-range seat indices are excluded by preconditions
  (`IndicesInRange`). In the code they throw array-index exceptions.
- A `null` event from the stream is not modelled. It would fall through to
  the unrecognised branch and fail there.
- Direct typing into the bet spinner is not modelled. It is a widget
  interaction; the model covers only the code paths that set the spinner.
- `PlayerPanel.OnTableLabel` models only the text `setChipsOnTable` writes.
  The constructor shows "0" in the label (`chipsOnTable+""`), so a new
  seat, and a seat that `NewGame` leaves unused, shows "0" until its first
  reset. The model has no separate label state, because nothing reads the
  label back.
- `ClientLauncher.Validate` counts name length in Dafny characters. Java
  counts UTF-16 code units, so a name with characters outside the Basic
  Multilingual Plane is measured differently.
- Messages printed to standard output, and the two test programs, are not
  modelled. The test programs drive the server over real sockets and assert
  nothing.

## Findings

| source | as written | input that shows it | evidently intended | confidence | as-written member | corrected member |
|---|---|---|---|---|---|---|
| src/io/github/jezdawgz/poker/client/ClientLauncher.java:187-209 | the port check rejects only negative values; a larger port reaches `new Socket(...)`, which throws `IllegalArgumentException`, and neither handler catches it | name "Alice", host "localhost", port 70000 | ports above 65535 are refused with "Enter a valid port (default 3232)" like negative ones | medium, not executed | `ClientLauncher.LargePortUnanswered` | `ClientLauncher.CheckedConnectAlwaysAnswers` |
