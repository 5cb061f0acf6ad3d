# Event management server: a verified model

This project models the seat-reservation server and its named-pipe clients, and proves what they promise.
`dafny verify dfyconfig.toml` checks everything. Nothing here was executed; all statements are proofs about
the model.

## What is modelled

* **The engine, alone.** `Ems` gives the serial meaning of the four calls of `operations.c` on values: an
  event is an id, a grid, a counter and a flat seat array; the state is the list of events in creation order.
  `Server` holds the source's own objects (`Event`, `ListNode`, `EventList`, `Engine`) with their pointers,
  arrays and loops, each method proved against the serial meaning; the nested seat scan uses the 64-bit
  `seat_index`, wrap included. `History` proves what all serial runs keep.
* **The engine, concurrent.** `Machine` is `operations.c` and `eventlist.c` as a step machine for any number
  of threads: every lock operation, list-pointer write, seat check, seat write and sent word is a step of its
  own. `Locks`, `Book`, `Failures` and `Refinement` carry the invariant; `Concurrency`, `Growth` and `Progress`
  state the theorems; `Answers` tells every reply of a run by the calls before it.
* **The wire.** `Bytes`, `Pipes`, `Wire`, `Fields` give the formats and `my_read`/`my_write` over pipes that
  move any positive part of what is asked for; `Layout` writes the bytes out. `Handler` is the server's `handle_client`, `Api` the client's
  `api.c`.
* **The client.** `Numbers` is `parse_uint`/`print_uint`; `Parser` says what each parser makes of a text and
  `Reader` is `parser.c` over an open file, proved to compute that; `Grammar` writes the command language
  down without the parser and proves that exactly it is read; `Resync` says where a turn of the command
  loop leaves the file, `Lines` when it costs exactly one line, and `Jobs` that a written file is read back;
  `ClientLoop` is the command loop of the client's `main.c`; `Output` is what it prints.
* **End to end.** `Direct` interprets commands with no array, counter, byte or pipe: an event is its grid and
  the list of accepted seat sets. `EndToEnd` proves that parsing, encoding, serving, replying and printing
  come to the same output file.
* **The request queue.** `Queue` is the ring buffer of the server's `main.c` and the workers that empty it.

## What the code does, where one might expect otherwise

* A request may name a seat twice and is then granted once (`src/server/operations.c:214-236`); the server
  accepts a request with no seats, the client never sends one.
* `RESERVE` takes 1 to 255 coordinates; exactly 256 are rejected (`src/client/parser.c:165-168`), and a
  `RESERVE` line that ends with the file instead of a newline is rejected (`Jobs.ReserveNeedsItsNewline`).
  `CREATE`, `SHOW` and `WAIT` cut in the same way are accepted exactly when what the unterminated buffer
  converts to fits an `unsigned int` (`Jobs.CutAtTheEndIff`).
* A rejected line does not always cost only itself. It does exactly when it stays in line
  (`Lines.StaysInLine`): the word of its first letter fits in the line, no separator, bracket or further
  numeral is missing at its end, and no numeral that ends it is too large (`Lines.LineCostsItselfIff`).
  Otherwise `cleanup` runs after the newline has been read and text of later lines is lost: the next line
  (`Jobs.CutLineSwallowsTheNext`), or two, when reading the word has already run over more than one newline
  (`Jobs.ShortWordSwallowsTwo`). A file is read line by line exactly when all its lines but the last stay in
  line (`Lines.OneTurnPerLineIff`).
* A NUL ends a `CREATE`, `RESERVE`, `SHOW` or `WAIT` without ending its line (`Jobs.NulEndsACommand`). This is
  the only way in which a turn can leave the middle of a line (`Resync.NextItemResyncs`).
* After 2^32 reservations on one event the counter is 0, the label of a free seat, and the seats of that last
  request can be sold again (`History.SoldTwiceIff`, `History.SoldTwice`). With requests that name a seat this
  can happen on a grid exactly when it has 2^32 seats or more (`History.WrapsIff`).
* The workers of the server's `main.c` look at the count and retrieve in two separate critical sections
  (`src/server/main.c:433-442`). With two or more workers, as the server runs, one request can wake two: the
  queue is first-in first-out in all runs only for a single worker (`Queue.SafeIffOneWorker`).
* The repository's README says that `my_read` and `my_write` resume after a signal; `my_read` returns -2
  instead and no caller looks for that (`src/common/io.c:46-51`). It gives the `WAIT` delay in seconds, as the
  code does, while the client's HELP text says milliseconds; delays are not modelled.

## Model

| member | source | states |
|---|---|---|
| Seats.IndexDoesNotWrap | src/server/operations.c:39 | for a seat of an allocated grid the 64-bit index expression never wraps |
| Seats.ParsedDimensionsFit | src/server/operations.c:140 | rows and columns read by `parse_uint` have a product that fits `size_t` |
| Seats.SeatAt | src/server/operations.c:39 | every cell of the array is the index of a seat of the grid |
| Seats.IndexInjective | src/server/operations.c:39 | two seats of the grid never share a cell |
| Seats.NamedIffCell | src/server/operations.c:214-217 | a cell is named by a request exactly when the request contains the seat stored there |
| Ems.ApplyValid | src/server/operations.c:99-242 | every call keeps events well formed and ids pairwise distinct |
| Ems.ApplyKeeps | src/server/eventlist.c:36-54 | no call removes, moves, renames or resizes an event |
| Server.Event.CheckBounds | src/server/operations.c:203-212 | the first loop says yes exactly when every pair lies in the grid |
| Server.Event.CheckSeats | src/server/operations.c:214-230 | the nested scan says yes exactly when every named seat exists and is free |
| Server.Event.WriteSeats | src/server/operations.c:232-236 | the counter goes up by one (wrapping) and exactly the named cells get the new id |
| Server.Event.ReserveSeats | src/server/operations.c:198-241 | all or nothing: granted exactly when every pair is in the grid and free, else event and counter are untouched |
| Server.Event.SendSeats | src/server/operations.c:285-330 | code 0, dimensions and all seats in array order reach the pipe, for any chunking |
| Server.Event.NestedScan | src/server/operations.c:370-388 | the row and column loops of the standard-output version visit the array in the same order |
| Server.EventList.constructor | src/server/eventlist.c:14-24 | the new list is empty and well linked |
| Server.EventList.Append | src/server/eventlist.c:36-54 | the event becomes the last; old nodes stay in place; a failed allocation changes nothing |
| Server.EventList.Link | src/server/eventlist.c:45-51 | the pointer writes keep the list acyclic with `tail` its last node |
| Server.EventList.GetEvent | src/server/eventlist.c:107-122 | the walk ends and gives the first event with the id between the two nodes, or none if there is none |
| Server.Engine.Lookup | src/server/operations.c:23-28 | the lookup from head to tail is the lookup by id in the serial state |
| Server.Engine.EmsCreate | src/server/operations.c:99-164 | state and result are those of the serial call; an existing id or a failed allocation changes nothing |
| Server.Engine.ReserveFound | src/server/operations.c:198-241 | on the event that was found the request is all or nothing, and no other event changes |
| Server.Engine.EmsReserve | src/server/operations.c:175-242 | state and result are those of the serial call; other events are untouched |
| Server.Engine.EmsShow | src/server/operations.c:251-334 | the bytes of the serial reply are sent, nothing changes, and 1 is returned exactly when there is no such event |
| Server.Engine.EmsListEvents | src/server/operations.c:407-492 | the bytes of the serial reply are sent, nothing changes, and 1 is returned exactly when there are no events |
| Server.Engine.CountNodes | src/server/operations.c:450-461 | the counting loop counts every event of the list |
| Server.Engine.SendIds | src/server/operations.c:471-486 | the sending loop sends every id once, in creation order |
| History.LabelsTellHistory | src/server/operations.c:203-236 | in every serial run seat i holds k > 0 exactly when the k-th granted request names it, if and only if at most 2^32 - 1 requests were granted on the event |
| History.GrantedRequestsDisjoint | src/server/operations.c:214-236 | no two granted requests of an event share a seat |
| History.TakenSeatsCounted | src/server/operations.c:232-236 | the number of non-zero cells is the sum of the distinct seats of the granted requests |
| History.CounterNeverWraps | src/server/operations.c:232 | with non-empty requests and at most 2^32 - 1 cells: counter = number granted <= taken cells <= rows * cols |
| History.EveryIdLabelsASeat | src/server/operations.c:232-236 | under the same guarantee every id handed out labels a seat |
| History.NothingAcceptedBeforeCreate | src/server/operations.c:193-196 | no request is granted on an id that has no event yet |
| History.TakenForever | src/server/operations.c:203-236 | a taken seat keeps its label through all later calls, even past a wrap |
| History.RefusedForever | src/server/operations.c:203-230 | a request refused on an existing event is refused in every later state |
| History.RefusedAgain | src/server/operations.c:175-242 | and so gets code 1 whenever it is made again |
| History.SoldTwiceIff | src/server/operations.c:232-236 | a request just granted can be granted again exactly when it is empty or the counter wrapped to 0 |
| History.SalesAreGranted | src/server/operations.c:203-236 | for every number of sales up to the number of seats a run grants that many requests of one seat each, with labels counted modulo 2^32 |
| History.WrapsIff | src/server/operations.c:232 | some run with non-empty requests grants more requests on an event than its counter can count exactly when the grid has 2^32 seats or more |
| History.SoldTwice | src/server/operations.c:232-236 | in such a run the last seat sold carries the label 0 and is granted again |
| History.ClientGridWraps | src/client/parser.c:94-117 | a grid of 65536 rows and columns, which a client can create, has such a run |
| History.OnlyTheSeatSetMatters | src/server/operations.c:203-236 | permuting or repeating pairs changes neither the answer nor the effect |
| History.DifferentEventsCommute | src/server/operations.c:175-242 | reservations on different events commute, replies included |
| History.GrantsCommuteUpToIds | src/server/operations.c:203-236 | unless the counter is at 2^32 - 1, two granted requests on one event commute up to swapping their two ids |
| Locks.StepKeepsLocks | src/server/operations.c:105-333 | every step keeps the lock words equal to what the threads' positions say |
| Book.StepKeepsBook | src/server/operations.c:99-492 | every step keeps the history of invocations and returns in agreement with the order of effects |
| Failures.StepKeepsFailures | src/server/operations.c:119-158 | every step keeps the log in agreement with the set of calls whose allocation failed |
| Refinement.StepKeepsData | src/server/operations.c:99-492 | every step of any thread keeps memory, half-done appends and half-written requests in agreement with the serial state |
| Refinement.HopIsSearch | src/server/eventlist.c:111-121 | one turn of the lookup loop on the heap is one step of a search by id |
| Concurrency.RunKeepsInv | src/server/operations.c:99-492 | the whole invariant holds in every state of every run |
| Concurrency.Linearizable | src/server/operations.c:99-492 | every history of every interleaving has a serial order with the same replies that respects real time, in which a call fails to allocate exactly when one of its own steps did |
| Concurrency.FailuresHappen | src/server/operations.c:119-158 | a call counts as failed only after a failing allocation step of that call |
| Concurrency.WithoutFailures | src/server/operations.c:119-158 | in a run without such steps no refused create is explained by an allocation failure |
| Concurrency.FreeEventsAreSerial | src/server/operations.c:198-241 | an event whose mutex is free holds exactly what the serial order says |
| Concurrency.IdleStateIsSerial | src/server/operations.c:105-333 | between calls all locks are free and the heap list and events are the serial state |
| Concurrency.SeatsTellHistory | src/server/operations.c:203-236 | the history theorem in every reachable state, for every event whose mutex is free |
| Concurrency.SnapshotsAreWhole | src/server/operations.c:285-332 | a matrix sent by `ems_show` is the labelling by a whole prefix of the granted requests, never a half-written one |
| Concurrency.RefusalsArePermanent | src/server/operations.c:203-230 | in every interleaving a request refused on an existing event is refused whenever it is made again |
| Concurrency.ListingsAgree | src/server/operations.c:450-486 | the count sent equals the number of ids that follow; ids come in creation order without repetition |
| Concurrency.IdsNeverReused | src/server/operations.c:232 | under the client's guarantee ids are 1, 2, 3, ... in every interleaving and never exceed the taken seats |
| Concurrency.HeldListIsSerial | src/server/eventlist.c:36-54 | a thread that holds the list lock outside an append sees the serial list, in order and acyclic |
| Concurrency.LocksNeverNest | src/server/operations.c:181-201 | no thread holds the list lock and an event mutex, or two event mutexes; writers exclude readers |
| Answers.RunsAnswerRight | src/server/operations.c:99-492 | in every interleaving a create answers 1 exactly when its allocation failed or a create of the id answered 0 before, else 0; a lookup misses, and the list is empty, exactly when no such create came before |
| Answers.RunsTellDirectly | src/server/operations.c:99-492 | in every interleaving without a counter wrap every reply is what direct interpretation says after the calls that took effect before |
| Growth.LogGrows | src/server/operations.c:99-492 | at every later moment of a run the history and the order of effects only have grown |
| Growth.NothingMoves | src/server/eventlist.c:36-54 | at every later moment an event has the same node at the same address, the same place, id and dimensions |
| Growth.UnlockedListIsSerial | src/server/eventlist.c:36-54 | whenever no thread holds the list lock for writing, the heap list is the serial list |
| Progress.UnblockedMoves | src/server/operations.c:99-492 | a thread that waits for no lock can step: no null pointer is followed and no array is left |
| Progress.DeadlockFree | src/server/operations.c:105-333 | in every reachable state with an unfinished call some thread can step, `print_error`'s own mutex included |
| Progress.WorkDecreases | src/server/operations.c:99-492 | every step but an invocation lowers a natural-number measure |
| Progress.CallsFinish | src/server/operations.c:99-492 | calls in progress end after at most that many steps in any order, with all locks free |
| Bytes.DecodeEncode | src/client/api.c:205-215 | an unsigned integer written in memory order is read back |
| Bytes.EncodeDecode | src/server/main.c:277-295 | and every byte string is the memory form of what is read from it |
| Bytes.IntRoundTrip | src/client/api.c:200 | the same for a signed `int` |
| Pipes.MyRead | src/common/io.c:41-62 | for any chunking the buffer is filled with the next bytes, fewer only at end of input, and nothing more is consumed |
| Pipes.MyWrite | src/common/io.c:76-90 | for any chunking all the data is appended in order |
| Fields.ReadInt | src/server/main.c:268 | an `int` field is read and exactly its bytes are consumed |
| Fields.ReadUint | src/server/main.c:277 | the same for an `unsigned int` |
| Fields.ReadSize | src/server/main.c:286 | the same for a `size_t` |
| Fields.ReadSizes | src/server/main.c:341-350 | the same for an array of `size_t` |
| Wire.BodyRoundTrip | src/client/api.c:268-298 | the server reads back a request field for field, the xs and ys arrays included, and stops at its last byte |
| Wire.SessionRoundTrip | src/server/main.c:222-403 | from any list of requests ending in quit the server loop decodes exactly that list and stops at the quit |
| Wire.ReplyRoundTrip | src/client/api.c:373-422 | the client reads back exactly the reply that was sent and consumes exactly its bytes |
| Wire.OtherCodesCarryData | src/client/api.c:378-394 | a show reply carries data after any code but 1, a list reply after any but 1 and 2 |
| Wire.BareCodes | src/client/api.c:226-248 | a create or reserve reply is its code alone |
| Wire.UnknownCodeSkipped | src/server/main.c:405-407 | a byte that is no op code is skipped alone |
| Wire.RepliesFit | src/server/operations.c:251-492 | every reply of the engine is one that the format of its request can carry |
| Layout.Values | src/client/api.c:200-215 | the bytes of an integer hold its value, least significant first, a negative int as two's complement |
| Layout.DecodeSnoc | src/server/main.c:277-295 | each further byte weighs 256 times as much |
| Layout.MinusOne | src/client/api.c:200 | an int of -1 is four bytes 255 |
| Layout.CreateLayout | src/client/api.c:192-218 | op code 3, session, id, rows, columns, byte for byte |
| Layout.ReserveLayout | src/client/api.c:268-298 | op code 4, session, id, number of seats, all rows, all columns, byte for byte |
| Layout.OtherLayouts | src/client/api.c:348-464 | show is op code 5, list 6 and quit 2, each with the session |
| Layout.ReplyLayout | src/server/operations.c:290-486 | bare codes, and code 0 with dimensions and seats or count and ids, byte for byte |
| Layout.PrintedLayout | src/client/api.c:396-524 | a row, a listing and the empty listing, character for character |
| Handler.ReadReserve | src/server/main.c:323-357 | the fields of a reserve request are read into the arrays and exactly its bytes are consumed |
| Handler.HandleCreate | src/server/main.c:266-310 | case 3 serves the decoded request and answers with its code |
| Handler.HandleReserve | src/server/main.c:312-365 | case 4 serves the decoded request, both arrays included, and answers with its code |
| Handler.HandleRequest | src/server/main.c:223-408 | one turn serves the operation that was encoded and consumes exactly its bytes |
| Handler.HandleClient | src/server/main.c:222-411 | for any chunking, state and response stream end as if the decoded operations were served one by one; reading stops at op code 2 |
| Numbers.DecimalValue | src/common/io.c:156-158 | the printed numeral has the value printed and no superfluous leading zero |
| Numbers.DecimalUnique | src/common/io.c:156-163 | and is the only such numeral |
| Numbers.UintLength | src/common/io.c:153 | it fits the 16-byte buffer |
| Numbers.FillDigits | src/common/io.c:153-163 | the backward loop leaves exactly the numeral at the end of the buffer |
| Numbers.PrintUint | src/common/io.c:152-174 | for any chunking exactly the numeral is appended to the file |
| Numbers.ParseUintFrom | src/common/io.c:105-137 | value, terminator and rest of the file, or too large, or more digits than the buffer holds |
| Numbers.Positional | src/common/io.c:128 | a digit string is read in base 10 whatever its first digit |
| Numbers.LeadingZeros | src/common/io.c:128 | zeros in front of a numeral change nothing |
| Numbers.ParseWithZeros | src/common/io.c:105-137 | a printed number with zeros in front, at most 15 digits in all, is read back too |
| Numbers.ParsePrinted | src/common/io.c:105-174 | reading a printed number followed by any non-digit gives the number and that character and leaves the rest |
| Resync.NextItemResyncs | src/client/parser.c:10-215 | on any text a turn with short numerals consumes something and leaves a line start or the end of the file exactly when it does not end a command at a NUL with text after it |
| Resync.GetNextResyncs | src/client/parser.c:16-92 | `get_next` leaves a line start where the command ends with its word or is rejected, else the arguments |
| Resync.NulFreeNeverSplits | src/client/parser.c:110-113 | a text without NUL has no command ended in this way |
| Resync.TurnsConsume | src/client/main.c:60-145 | on any file with numerals of at most 15 digits every turn is defined and consumes a byte, so the end is reached |
| Resync.EveryTurnStartsALineIff | src/client/main.c:60-145 | on such a file every turn starts a line exactly when no turn ends a command at a NUL with text after it |
| Resync.EveryTurnStartsALine | src/client/main.c:60-145 | on such a file without NUL, valid or not, every turn starts a line |
| Resync.ShortNumeralsAreDefined | src/common/io.c:105-126 | no item of such a file overruns the buffer of `parse_uint` |
| Resync.TurnReads | src/client/main.c:60-145 | the k-th item of a file is what is read from what the first k turns leave |
| Parser.ReadsByClient | src/client/main.c:66-144 | every operation read from any text has `unsigned int` numbers and 1 to 255 coordinates |
| Grammar.ReadsIff | src/client/parser.c:16-215 | on any text a defined turn reads a given operation, wait, help or empty line if and only if the text starts with its spelling |
| Grammar.InvalidIff | src/client/main.c:68-113 | and rejects exactly the texts that spell nothing |
| Grammar.CreateReads | src/client/parser.c:94-117 | CREATE arguments are three numerals, two spaces and a line end |
| Grammar.ReserveReads | src/client/parser.c:119-176 | RESERVE arguments are a numeral, a bracketed list of 1 to 255 pairs and a line end right after the bracket |
| Grammar.ShowReads | src/client/parser.c:178-187 | SHOW arguments are a numeral and a line end |
| Grammar.WaitReads | src/client/parser.c:189-215 | WAIT arguments are a numeral and a line end or a space |
| Grammar.CommentReads | src/client/parser.c:81-83 | a comment is read as an empty line and costs only itself |
| Grammar.StrangeLineReads | src/client/parser.c:88-90 | a line with another first letter is rejected and costs only itself |
| Grammar.NothingAfterTheWord | src/client/parser.c:53-56 | LIST and HELP with anything after them on their line are rejected |
| Lines.LineCostsItselfIff | src/client/parser.c:10-215 | a line without NUL and with short numerals, followed by any text, is consumed alone exactly when it stays in line |
| Lines.ReadsLineItem | src/client/parser.c:16-215 | what such a line is read as depends on the line alone |
| Lines.OneTurnPerLineIff | src/client/main.c:60-145 | a file of such lines takes at most one turn a line, and one for each, reading each line by itself, exactly when all but the last stay in line |
| Jobs.LineReads | src/client/parser.c:16-215 | a line in the documented form is read as the command it was written from |
| Jobs.FileRoundTrip | src/client/main.c:60-145 | reading a file written from any list of well-formed commands gives back exactly that list, then the end |
| Jobs.ReserveAcceptedIff | src/client/parser.c:132-168 | a RESERVE line in the documented form is accepted exactly when it has fewer than 256 coordinates |
| Jobs.CutLineSwallowsTheNext | src/client/parser.c:97-100 | a CREATE line cut after its id is rejected together with the following line |
| Jobs.ShortWordSwallowsTwo | src/client/parser.c:23-27 | the letter C alone on a line can take the two following lines along |
| Jobs.ReserveNeedsItsNewline | src/client/parser.c:170-173 | a RESERVE line in the documented form is rejected when the file ends after its bracket |
| Jobs.CutAtTheEndIff | src/common/io.c:109-134 | SHOW, WAIT and CREATE ended by the end of the file are accepted exactly when the buffer converts to an `unsigned int` |
| Jobs.NulEndsACommand | src/client/parser.c:181-186 | a NUL ends a SHOW command in the middle of a line |
| Reader.Cleanup | src/client/parser.c:10-14 | the rest of the line and its newline are consumed |
| Reader.GetNextFrom | src/client/parser.c:16-92 | command and rest of the file are those of the specification |
| Reader.ParseCreateFrom | src/client/parser.c:94-117 | the numbers, rejection and rest of the file are those of the specification |
| Reader.ParseReserveFrom | src/client/parser.c:119-176 | the arrays hold exactly the coordinates of the line; rejection and rest of the file are those of the specification |
| Reader.ParseShowFrom | src/client/parser.c:178-187 | the same for SHOW |
| Reader.ParseWaitFrom | src/client/parser.c:189-215 | the same for WAIT, a thread id skipped with its line |
| Api.Client.EmsQuit | src/client/api.c:134-152 | the quit request is written |
| Api.Client.EmsCreate | src/client/api.c:185-249 | one create request is written, one reply consumed, its code returned |
| Api.Client.EmsReserve | src/client/api.c:261-329 | one reserve request is written, one reply consumed, its code returned |
| Api.Client.EmsShow | src/client/api.c:341-435 | one show request is written, one reply consumed, its matrix printed row by row; the code received is returned |
| Api.Client.EmsListEvents | src/client/api.c:445-537 | one list request is written, one reply consumed, its ids or "No events" printed; the code received is returned, 1 for a code 2 |
| Api.PrintRows | src/client/api.c:396-422 | the nested reader consumes exactly rows * cols words and prints them in order |
| Api.PrintIds | src/client/api.c:497-524 | one word is consumed and one line printed per event |
| ClientLoop.Turn | src/client/main.c:66-144 | one turn reads one item and, for an operation, sends one request, reads one reply and prints it |
| ClientLoop.Run | src/client/main.c:60-145 | the loop reaches the end of any file, sends exactly its operations and a quit, and prints exactly what the replies say |
| Direct.GrantMatches | src/server/operations.c:232-236 | writing the id over the named cells labels each seat by the latest request that holds it |
| Direct.TakesIffAccepts | src/server/operations.c:203-230 | the array test agrees with disjointness from all accepted seat sets |
| Direct.ShowPrints | src/client/api.c:396-422 | printing the flat array row by row prints the grid seat by seat |
| Direct.CallMatches | src/server/operations.c:99-492 | one engine call with its result code and its printed reply is one directly interpreted command |
| Direct.SmallGridsCount | src/server/operations.c:232 | no counter wraps when every request names a seat and no grid has more than 2^32 - 1 seats |
| EndToEnd.ResponsesInStep | src/client/api.c:226-524 | over a whole session the client reads back exactly the replies the server gave, each from its first byte |
| EndToEnd.ServeSplits | src/server/main.c:222-409 | serving a list of operations is serving its first part and then the rest |
| EndToEnd.LockStep | src/server/main.c:222-409 | on the first n requests the server has decoded exactly those and written exactly their n replies, and the client's first n reads take exactly these bytes |
| EndToEnd.PrintsDirectly | src/client/main.c:60-145 | what the client prints for a served list of operations, and the codes it receives, are those of interpreting them |
| EndToEnd.WholeSession | src/client/main.c:60-145 | for every command file the server decodes its operations, and the output file and all result codes are the directly interpreted ones, unless a counter wrapped |
| EndToEnd.InputCounts | src/server/operations.c:232 | no counter wraps while a file of fewer than 2^32 characters, or one that creates no event with 2^32 seats or more, is served |
| EndToEnd.WholeSessionOnInput | src/client/main.c:60-145 | the end-to-end statement for every such file |
| EndToEnd.WrittenFile | src/client/main.c:60-145 | the same for a file written from any list of well-formed commands |
| EndToEnd.RunBoth | src/server/main.c:222-409 | the server on the request bytes the client sends and the client on the response bytes the server writes agree on both streams, and the output is the directly interpreted one |
| EndToEnd.RunBothOnInput | src/server/main.c:222-409 | the same with a condition on the command file only |
| Queue.Server.InsertRequest | src/server/main.c:133-141 | the request enters the next slot with the session counter as its id |
| Queue.Server.RetrieveRequest | src/server/main.c:159-172 | the first slot is copied and the count goes down, whatever it was |
| Queue.RunKeepsInv | src/server/main.c:120-172 | for any capacity and any workers: count = inserts - retrieves <= capacity, indices are these modulo the capacity, the k-th insert has id k, and with no blind take the k-th taken is the k-th inserted |
| Queue.FillsUp | src/server/main.c:128-139 | as many requests as the capacity are taken in, and the next one waits |
| Queue.FifoIff | src/server/main.c:421-445 | a run is first-in first-out throughout exactly when every take found a positive count |
| Queue.RaceGoesWrong | src/server/main.c:433-442 | with two workers a run exists that brings the count to -1, at which no worker waits, and then leaves a request with no worker looking at it |
| Queue.SafeIffOneWorker | src/server/main.c:433-442 | no run takes blindly exactly when there is at most one worker |

## Left out

- Pipes.MyRead: an interrupted or failed `read` is not modelled, so neither are the results -1 and -2; likewise failed writes and failed lock calls.
- Pipes.MyWrite: stands for the loop of `print_str` (`src/common/io.c:186-199`) as well, which differs only in its result.
- Server.Engine.EmsCreate: the product of the dimensions is required to fit `size_t`; clients cannot send a larger one, and `calloc` of a wrapped product is not modelled.
- Handler.HandleClient: requests that are cut off and requests with more than 256 seats are excluded, since the source then reads stale locals or leaves its arrays; the client sends neither.
- Handler.HandleCreate: a create request that is cut off, or whose dimensions multiply beyond `size_t`, is excluded for the same reason.
- Handler.HandleReserve: a reserve request that is cut off or has more than 256 seats is excluded for the same reason.
- Handler.HandleRequest: the same two exclusions hold for one turn of the loop. `case 2` of its switch and `remove_session` are not modelled because the loop condition keeps them from running.
- Numbers.ParseUintFrom: a numeral of more than 15 digits overruns the source's buffer and has no modelled result; a numeral ended by end of file has an arbitrary one, the parameter `eof`, because the source converts an unterminated buffer.
- Jobs.FileRoundTrip: files are written with a newline after each command and without comments; comments and malformed lines are covered by `Resync` and `Lines`.
- Reader.ParseWaitFrom: the variant with a thread id is not modelled; no caller asks for one.
- Pipes.Source: a pipe is a reliable byte stream; creating, opening, closing and unlinking named pipes and the order of opens are not modelled. A command file is a regular file, whose reads return all that is asked for.
- ClientLoop.Run: waiting, the HELP text, messages to standard error and argument checks print nothing to the output file and are not modelled. The response stream is given as a whole; `EndToEnd.LockStep` says that each read needs only replies to requests already sent.
- Machine.Step: addresses of nodes and events are allocation numbers, nothing is freed, the delay in the lookup is not modelled, and a response write always completes. The code and header words of a reply are sent in the same step as its last word.
- Concurrency.Linearizable: calls of several clients, not their pipes, are interleaved; what each pipe carries is the subject of the sequential theorems.
- EndToEnd.RunBoth: the two programs run one after the other on whole streams, not turn by turn; `EndToEnd.LockStep` relates the streams at every turn.
- EndToEnd.WholeSession: the server starts with no events and serves this client alone; several clients are covered by `Concurrency.Linearizable`.
- Queue.RunKeepsInv: a producer is taken to go on whenever there is room, although `retrieve_request` never signals it, so nothing is claimed about its progress; the session counter does not overflow.
- Server.Event.NestedScan: the text and locks of `ems_show_stdout`, the signal handler and `print_events` (which walks the list without its lock) are not modelled, only the seat order.
- Shutdown, `ems_terminate`, `free_list` and all freeing are outside any run the server loop reaches.
