# PQS in Dafny: Connect Four, an address book and a stopwatch

This project models, in Dafny, the core of three small Java programs and proves
properties of the model.

- **Connect Four** (`PS4_fa15`):
  - the game board: a grid of chips, a per-column "next free row" pointer and a free-spot counter;
  - the four counter-based win scans and the one-ply look-ahead;
  - the players, their builder, their factory and the computer's move;
  - the controller, which checks its configuration, drives the board, keeps whose turn it is and notifies its listeners.
- **Address book** (`PS1_fa15`):
  - contacts with a builder, null-aware equality and a one-line `;`-separated form;
  - the book: add, remove the first equal contact, case-insensitive search, listing, equality, and reading contacts back from lines.
- **Stopwatch** (`PS2_fa15`):
  - a start/lap/stop/reset state machine over a start time, the end of the last lap and a list of lap times;
  - the factory that hands out stopwatches under unique ids.

Each Java class whose fields change becomes a Dafny `class` with those fields.
The board keeps its `array2` grid and its `array` of pointers. The address book
keeps a `seq` of contacts and the factory a `set` and a `seq`. Listener calls are
recorded as a `log` of notifications: one entry per listener per event, in
registration order. Pure values (chips, players, contacts, stopwatch states) are
datatypes.

Each method is proved against a specification function. Properties that span
several calls are stated as lemmas:
- gravity and the free-spot count;
- what a win scan reports;
- contact round trips through the saved line;
- lap sums;
- id uniqueness.

Files:
- `outcomes.dfy`: `Option`, `Result` and the Java exceptions.
- `seqs.dfy`: counting occurrences.
- `text.dfy`: ASCII case folding, `contains` and `split` with a one-character pattern.
- `grid.dfy`: cells, scan lines, runs, gravity and free-spot counting.
- `game_board.dfy`, `player.dfy`, `player_factory.dfy`, `game_model.dfy`: Connect Four.
- `contact.dfy`, `address_book.dfy`: the address book.
- `stopwatch.dfy`, `stopwatch_factory.dfy`: the stopwatch.

## Model

| member | source | states |
|---|---|---|
| ConnectFourGameBoard.GameBoard.constructor | PS4_fa15/src/edu/nyu/cs/pqs/ConnectFourGameBoard.java:28-34 | a board of the given size with every cell unset, every pointer 0 and the counter 0 |
| ConnectFourGameBoard.GameBoard.Copy | PS4_fa15/src/edu/nyu/cs/pqs/ConnectFourGameBoard.java:43-57 | a deep copy: same size, same cells, same pointers and counter, in freshly allocated arrays |
| ConnectFourGameBoard.GameBoard.CopyColumn | PS4_fa15/src/edu/nyu/cs/pqs/ConnectFourGameBoard.java:52-54 | the inner copy loop fills one column of the new grid from the source and leaves the other columns alone |
| ConnectFourGameBoard.GameBoard.SetGameBoard | PS4_fa15/src/edu/nyu/cs/pqs/ConnectFourGameBoard.java:62-70 | every cell Empty, every pointer on the bottom row, counter rows*columns, and the board is set up (gravity holds and the counter equals the free spots) |
| ConnectFourGameBoard.GameBoard.ResetGameBoard | PS4_fa15/src/edu/nyu/cs/pqs/ConnectFourGameBoard.java:75-77 | the same new state as setting the board up |
| ConnectFourGameBoard.GameBoard.GetNextRowAvailableToFill | PS4_fa15/src/edu/nyu/cs/pqs/ConnectFourGameBoard.java:86-88 | the landing row lies between -1 (column full) and the last row |
| ConnectFourGameBoard.GameBoard.IsSpotAvailable | PS4_fa15/src/edu/nyu/cs/pqs/ConnectFourGameBoard.java:97-102 | on a set-up board a column has room exactly when its top cell is Empty |
| ConnectFourGameBoard.GameBoard.GetChipAt | PS4_fa15/src/edu/nyu/cs/pqs/ConnectFourGameBoard.java:113-115 | the chip is the grid's cell at (row, column) |
| ConnectFourGameBoard.GameBoard.IsBoardFull | PS4_fa15/src/edu/nyu/cs/pqs/ConnectFourGameBoard.java:122-124 | on a set-up board, full exactly when no column has room, and exactly when no cell is Empty |
| ConnectFourGameBoard.GameBoard.CounterMeansFreeSpots | PS4_fa15/src/edu/nyu/cs/pqs/ConnectFourGameBoard.java:122-124 | on a set-up board the counter is non-negative, is 0 exactly when every column is full, and equals the number of Empty cells |
| ConnectFourGameBoard.GameBoard.GetNumOfColumns | PS4_fa15/src/edu/nyu/cs/pqs/ConnectFourGameBoard.java:244-246 | the number of columns |
| ConnectFourGameBoard.GameBoard.InsertChipAt | PS4_fa15/src/edu/nyu/cs/pqs/ConnectFourGameBoard.java:135-145 | inserted exactly when the column had room; then the chip lands on the pointer's row, the pointer moves up one row, the counter drops by one and nothing else changes; otherwise nothing changes; dropping a player's chip keeps a set-up board set up |
| ConnectFourGameBoard.GameBoard.PutChip | PS4_fa15/src/edu/nyu/cs/pqs/ConnectFourGameBoard.java:138 | exactly one cell is written |
| ConnectFourGameBoard.GameBoard.ScanLine | PS4_fa15/src/edu/nyu/cs/pqs/ConnectFourGameBoard.java:174-242 | the shared counter loop of the four scans returns true exactly when the line holds a run of numToWin chips of the colour (row and column: the counter equals numToWin; diagonals: it reaches numToWin) |
| ConnectFourGameBoard.GameBoard.CheckHorizontal | PS4_fa15/src/edu/nyu/cs/pqs/ConnectFourGameBoard.java:174-187 | true exactly when the whole row holds a run of numToWin chips of the colour |
| ConnectFourGameBoard.GameBoard.CheckVertical | PS4_fa15/src/edu/nyu/cs/pqs/ConnectFourGameBoard.java:189-202 | true exactly when the whole column holds such a run |
| ConnectFourGameBoard.GameBoard.CheckForwardDiagonal | PS4_fa15/src/edu/nyu/cs/pqs/ConnectFourGameBoard.java:204-222 | true exactly when the down-right window (from the board edge to at most three cells past the cell) holds such a run |
| ConnectFourGameBoard.GameBoard.CheckBackwardDiagonal | PS4_fa15/src/edu/nyu/cs/pqs/ConnectFourGameBoard.java:224-242 | the same for the up-right window |
| ConnectFourGameBoard.GameBoard.IsWinningMove | PS4_fa15/src/edu/nyu/cs/pqs/ConnectFourGameBoard.java:161-172 | throws IllegalArgumentException exactly when the cell below the pointer is off the board; otherwise reports whether one of the four scans through that cell finds a run |
| ConnectFourGameBoard.GameBoard.CheckIfWinningMove | PS4_fa15/src/edu/nyu/cs/pqs/ConnectFourGameBoard.java:258-265 | true exactly when the column has room and the win check holds on the grid with the chip dropped there; the board itself does not change |
| ConnectFourGameBoard.GameBoard.DropAndCheck | PS4_fa15/src/edu/nyu/cs/pqs/ConnectFourGameBoard.java:259-264 | on the copy: insert, then the win check on the landing cell, equals the look-ahead on the copy's old state |
| Grid.ScanStep | PS4_fa15/src/edu/nyu/cs/pqs/ConnectFourGameBoard.java:176-185 | one step of the counter loop keeps the scan invariant: a stop means a run exists, and otherwise no run ends before the next cell |
| Grid.ScanEnd | PS4_fa15/src/edu/nyu/cs/pqs/ConnectFourGameBoard.java:186 | a scan that runs off the end of the line has seen no run |
| Grid.GravityColumn | PS4_fa15/src/edu/nyu/cs/pqs/ConnectFourGameBoard.java:86-102 | under gravity a column holds pointer+1 Empty cells |
| Grid.GravityCountsEmpty | PS4_fa15/src/edu/nyu/cs/pqs/ConnectFourGameBoard.java:122-124 | under gravity the free spots described by the pointers equal the Empty cells |
| Grid.FreeCountDecrement | PS4_fa15/src/edu/nyu/cs/pqs/ConnectFourGameBoard.java:139-141 | moving one pointer up one row removes exactly one free spot |
| Grid.FreeCountZero | PS4_fa15/src/edu/nyu/cs/pqs/ConnectFourGameBoard.java:122-124 | with every pointer at least -1, no free spot exactly when every column is full |
| Grid.FreeCountUniform | PS4_fa15/src/edu/nyu/cs/pqs/ConnectFourGameBoard.java:62-70 | a freshly set board has rows*columns free spots |
| Grid.DropKeepsGravity | PS4_fa15/src/edu/nyu/cs/pqs/ConnectFourGameBoard.java:135-145 | dropping a player's chip onto the pointer's row and moving the pointer up keeps gravity |
| Grid.DropKeepsInitialised | PS4_fa15/src/edu/nyu/cs/pqs/ConnectFourGameBoard.java:135-145 | the same drop keeps gravity and keeps the counter equal to the free spots |
| Grid.RunOnLine | PS4_fa15/src/edu/nyu/cs/pqs/ConnectFourGameBoard.java:174-242 | a run found on a scanned line is a run of board cells of that colour on the same line |
| Grid.WinningMoveSound | PS4_fa15/src/edu/nyu/cs/pqs/ConnectFourGameBoard.java:161-172 | a reported win is a real run on the board: numToWin consecutive cells of the colour in the cell's row, its column or one of its two diagonals (for numToWin at most 0, only the diagonal scans can report, when the colour appears in their window) |
| Grid.ForwardScanFindsShortRuns | PS4_fa15/src/edu/nyu/cs/pqs/ConnectFourGameBoard.java:204-222 | every down-right run of at most four chips through the cell is reported by the forward scan |
| Grid.BackwardScanFindsShortRuns | PS4_fa15/src/edu/nyu/cs/pqs/ConnectFourGameBoard.java:224-242 | every up-right run of at most four chips through the cell is reported by the backward scan |
| Grid.DiagonalBoardGravity | PS4_fa15/src/edu/nyu/cs/pqs/ConnectFourGameBoard.java:86-102 | the 5x5 example board is a full board that satisfies gravity |
| Grid.DiagonalWindowMissesRunOfFive | PS4_fa15/src/edu/nyu/cs/pqs/ConnectFourGameBoard.java:204-222 | on that board, with five to win, five Red chips on the diagonal through (0, 0) are not reported, because the window ends three cells past the cell |
| ConnectFourPlayer.Builder.constructor | PS4_fa15/src/edu/nyu/cs/pqs/ConnectFourPlayer.java:46-50 | name, type and seat as given; no games played or won |
| ConnectFourPlayer.Builder.GamesPlayed | PS4_fa15/src/edu/nyu/cs/pqs/ConnectFourPlayer.java:52-55 | sets the games played, returns the same builder, nothing else changes |
| ConnectFourPlayer.Builder.GamesWon | PS4_fa15/src/edu/nyu/cs/pqs/ConnectFourPlayer.java:57-60 | sets the games won, returns the same builder, nothing else changes |
| ConnectFourPlayer.Builder.Build | PS4_fa15/src/edu/nyu/cs/pqs/ConnectFourPlayer.java:62-73 | a player carrying exactly the builder's five fields |
| ConnectFourPlayer.Color | PS4_fa15/src/edu/nyu/cs/pqs/ConnectFourPlayer.java:133-139 | a player's colour is Red or Blue, Red exactly for seat One |
| ConnectFourPlayer.Equals | PS4_fa15/src/edu/nyu/cs/pqs/ConnectFourPlayer.java:153-164 | false for null; otherwise the names have the same length and agree letter by letter up to ASCII case |
| ConnectFourPlayer.EqualsIsEquivalence | PS4_fa15/src/edu/nyu/cs/pqs/ConnectFourPlayer.java:153-164 | player equality is reflexive, symmetric and transitive |
| ConnectFourPlayer.AvailableColumns | PS4_fa15/src/edu/nyu/cs/pqs/ConnectFourPlayer.java:108-114 | the columns with room, in increasing order, all of them |
| ConnectFourPlayer.FirstWinningProbe | PS4_fa15/src/edu/nyu/cs/pqs/ConnectFourPlayer.java:118-122 | the smallest probed column whose drop would win, or none exactly when no probed column wins |
| ConnectFourPlayer.GetColumnComputerPlayer | PS4_fa15/src/edu/nyu/cs/pqs/ConnectFourPlayer.java:107-125 | IllegalStateException exactly when no column has room; otherwise a column with room; the first winning probe when one of the probes 0..n-1 (n = number of columns with room) wins; else some column with room |
| ConnectFourPlayer.GetMove | PS4_fa15/src/edu/nyu/cs/pqs/ConnectFourPlayer.java:96-101 | a human answers -1; a computer answers as GetColumnComputerPlayer does: IllegalStateException exactly when no column has room, otherwise a column with room, the first winning probe when one of the probes wins |
| ConnectFourPlayerFactory.PlayerFactory.GetHumanPlayer | PS4_fa15/src/edu/nyu/cs/pqs/ConnectFourPlayerFactory.java:42-44 | a human player with the given name and seat, no games played or won, Red exactly for seat One |
| ConnectFourPlayerFactory.PlayerFactory.GetComputerPlayer | PS4_fa15/src/edu/nyu/cs/pqs/ConnectFourPlayerFactory.java:51-54 | the player named "Computer" in seat Two, playing Blue, no games played or won |
| ConnectFourPlayerFactory.Instance.GetFactoryInstance | PS4_fa15/src/edu/nyu/cs/pqs/ConnectFourPlayerFactory.java:24-31 | a new factory on the first call and that same factory on every later call |
| ConnectFourModel.Broadcast | PS4_fa15/src/edu/nyu/cs/pqs/ConnectFourModel.java:141-188 | one notification per listener, in registration order, all carrying the same event |
| ConnectFourModel.Model.constructor | PS4_fa15/src/edu/nyu/cs/pqs/ConnectFourModel.java:40-46 | a fresh board of the given size and win length with every cell unset, every pointer 0 and the counter 0; both players stored, no listeners, player one to move |
| ConnectFourModel.Model.Create | PS4_fa15/src/edu/nyu/cs/pqs/ConnectFourModel.java:31-47 | IllegalArgumentException exactly when numToWin exceeds the columns, or the players share a seat or a name ignoring case; past those checks, a negative row or column count gives NegativeArraySizeException; otherwise a valid controller holding both players, with a fresh unset board of the given size and win length, no listeners and player one to move |
| ConnectFourModel.Model.GetNumOfRows | PS4_fa15/src/edu/nyu/cs/pqs/ConnectFourModel.java:190-192 | the configured number of rows |
| ConnectFourModel.Model.GetNumOfColumns | PS4_fa15/src/edu/nyu/cs/pqs/ConnectFourModel.java:194-196 | the configured number of columns |
| ConnectFourModel.Model.AddListener | PS4_fa15/src/edu/nyu/cs/pqs/ConnectFourModel.java:55-57 | the listener is appended; nothing else changes |
| ConnectFourModel.Model.Fire | PS4_fa15/src/edu/nyu/cs/pqs/ConnectFourModel.java:141-188 | every registered listener receives the event, in order, and nothing else changes |
| ConnectFourModel.Model.StartGame | PS4_fa15/src/edu/nyu/cs/pqs/ConnectFourModel.java:63-66 | the board is set up empty and every listener is told who moves |
| ConnectFourModel.Model.MoveSuccessful | PS4_fa15/src/edu/nyu/cs/pqs/ConnectFourModel.java:112-123 | a column with room takes the current player's chip and the move is announced with the row it landed on; a full column is announced and the board does not change |
| ConnectFourModel.Model.GameOver | PS4_fa15/src/edu/nyu/cs/pqs/ConnectFourModel.java:100-110 | over exactly when the landing cell completes a run for the current player (a win is announced) or the counter is 0 (a draw is announced); otherwise nothing is announced |
| ConnectFourModel.Model.ChangePlayerTurn | PS4_fa15/src/edu/nyu/cs/pqs/ConnectFourModel.java:90-98 | the turn passes to the other player and listeners receive the new player's id with the live board |
| ConnectFourModel.Model.EndTurn | PS4_fa15/src/edu/nyu/cs/pqs/ConnectFourModel.java:76-80 | after a drop: a win or a draw is announced and the same player stays, or else the turn passes |
| ConnectFourModel.Model.ManageMove | PS4_fa15/src/edu/nyu/cs/pqs/ConnectFourModel.java:75-84 | false and only "column full" announced on a full column; otherwise the chip drops, the free-spot counter drops by one, and the exact sequence of notifications for win, draw or turn change follows; a refused move leaves the board and its counter unchanged |
| ConnectFourModel.Model.Quit | PS4_fa15/src/edu/nyu/cs/pqs/ConnectFourModel.java:128-130 | every listener is told to quit; nothing else changes |
| ConnectFourModel.Model.Reset | PS4_fa15/src/edu/nyu/cs/pqs/ConnectFourModel.java:135-139 | player one to move, reset announced, then the board set up empty and the start announced |
| Contacts.Builder.constructor | PS1_fa15/src/edu/nyu/cs/pqs/Contact.java:40-43 | name and phone number as given, optional fields unset |
| Contacts.Builder.PostalAddress | PS1_fa15/src/edu/nyu/cs/pqs/Contact.java:52-55 | sets the postal address, returns the same builder, nothing else changes |
| Contacts.Builder.EmailAddress | PS1_fa15/src/edu/nyu/cs/pqs/Contact.java:64-67 | sets the e-mail address, returns the same builder, nothing else changes |
| Contacts.Builder.Note | PS1_fa15/src/edu/nyu/cs/pqs/Contact.java:76-79 | sets the note, returns the same builder, nothing else changes |
| Contacts.Builder.Build | PS1_fa15/src/edu/nyu/cs/pqs/Contact.java:86-98 | a contact carrying exactly the builder's five fields |
| Contacts.Equals | PS1_fa15/src/edu/nyu/cs/pqs/Contact.java:154-204 | true exactly when the other object is a contact with the same five fields (null matching only null) |
| Contacts.ToString | PS1_fa15/src/edu/nyu/cs/pqs/Contact.java:211-226 | the line `name;phone;postal;email;note;` with a null required field written "null" and a null optional field left empty |
| Contacts.Serialised | PS1_fa15/src/edu/nyu/cs/pqs/Contact.java:211-226 | the serialised line is non-empty and ends in ';' |
| Contacts.SerialisedSeparators | PS1_fa15/src/edu/nyu/cs/pqs/Contact.java:211-226 | when no field holds ';' the line holds exactly five separators |
| AddressBook.AddressBook.constructor | PS1_fa15/src/edu/nyu/cs/pqs/AddressBook.java:22-24 | an empty book |
| AddressBook.AddressBook.CreateEmptyAddressBook | PS1_fa15/src/edu/nyu/cs/pqs/AddressBook.java:31-33 | a new empty book |
| AddressBook.AddressBook.AddContact | PS1_fa15/src/edu/nyu/cs/pqs/AddressBook.java:41-43 | the contact is appended, duplicates included |
| AddressBook.AddressBook.RemoveContact | PS1_fa15/src/edu/nyu/cs/pqs/AddressBook.java:51-53 | the book becomes RemoveFirst of the old book |
| AddressBook.RemoveFirst | PS1_fa15/src/edu/nyu/cs/pqs/AddressBook.java:51-53 | a book without the contact is unchanged; otherwise it loses exactly one entry |
| AddressBook.RemoveFirstOccurrence | PS1_fa15/src/edu/nyu/cs/pqs/AddressBook.java:51-53 | exactly the first equal entry goes; the entries before and after it stay, in order |
| AddressBook.RemoveFirstMultiset | PS1_fa15/src/edu/nyu/cs/pqs/AddressBook.java:51-53 | the book's multiset loses one copy of the contact, or nothing when there is none |
| AddressBook.AddressBook.Search | PS1_fa15/src/edu/nyu/cs/pqs/AddressBook.java:62-71 | the contacts whose lower-cased line contains the lower-cased query, in book order |
| AddressBook.Matching | PS1_fa15/src/edu/nyu/cs/pqs/AddressBook.java:62-71 | the result is never longer than the book |
| AddressBook.MatchingMembers | PS1_fa15/src/edu/nyu/cs/pqs/AddressBook.java:62-71 | a contact is in the result exactly when it is in the book and matches |
| AddressBook.MatchingEmptyQuery | PS1_fa15/src/edu/nyu/cs/pqs/AddressBook.java:62-71 | the empty query returns the whole book |
| AddressBook.AddressBook.ToString | PS1_fa15/src/edu/nyu/cs/pqs/AddressBook.java:184-190 | each contact's line followed by a newline, in book order |
| AddressBook.ListingLines | PS1_fa15/src/edu/nyu/cs/pqs/AddressBook.java:184-190 | when no field holds a line break the text has exactly one line per contact |
| AddressBook.AddressBook.Equals | PS1_fa15/src/edu/nyu/cs/pqs/AddressBook.java:159-178 | true exactly when the other object is a book with the same contacts in the same order |
| AddressBook.ParseLine | PS1_fa15/src/edu/nyu/cs/pqs/AddressBook.java:113-137 | an empty line holds no contact; a line that splits into fewer than five fields throws an index-out-of-bounds exception; otherwise name and phone are set and the optional fields are set only when non-empty |
| AddressBook.SerialisedPieces | PS1_fa15/src/edu/nyu/cs/pqs/AddressBook.java:116 | a serialised line splits at its separators into the five fields and an empty last piece |
| AddressBook.ParseSerialised | PS1_fa15/src/edu/nyu/cs/pqs/AddressBook.java:113-137 | a contact with name, phone and a non-empty note, no ';' in any field and no empty optional field is read back from its own line |
| AddressBook.ParseWithoutNoteFails | PS1_fa15/src/edu/nyu/cs/pqs/AddressBook.java:113-137 | a contact without a note cannot be read back: its line throws |
| AddressBook.LoadResult | PS1_fa15/src/edu/nyu/cs/pqs/AddressBook.java:111-140 | reading lines adds at most one contact per line |
| AddressBook.LoadContact | PS1_fa15/src/edu/nyu/cs/pqs/AddressBook.java:137-138 | a line that holds a contact puts it in front of what the remaining lines add |
| AddressBook.SavedLines | PS1_fa15/src/edu/nyu/cs/pqs/AddressBook.java:82-94 | one serialised line per contact, in order |
| AddressBook.LoadSavedLines | PS1_fa15/src/edu/nyu/cs/pqs/AddressBook.java:111-140 | reading one serialised line per contact, for contacts that all round-trip, gives the same contacts and no error |
| AddressBook.ListingScansToSavedLines | PS1_fa15/src/edu/nyu/cs/pqs/AddressBook.java:82-94 | the text a save writes, read back line by line, is one serialised line per contact, provided no field holds a line break |
| AddressBook.LoadSerialisedLines | PS1_fa15/src/edu/nyu/cs/pqs/AddressBook.java:82-142 | saving a book whose contacts all round-trip and hold no line break and loading the file line by line gives the same contacts and no error |
| AddressBook.NoteBreakLines | PS1_fa15/src/edu/nyu/cs/pqs/AddressBook.java:82-94 | a saved contact whose note is a line break reads back as two lines: the fields before the note, and ";" |
| AddressBook.FieldsBeforeNotePieces | PS1_fa15/src/edu/nyu/cs/pqs/AddressBook.java:116 | the fields before the note split at their separators into the four fields and an empty last piece |
| AddressBook.FieldsBeforeNoteFail | PS1_fa15/src/edu/nyu/cs/pqs/AddressBook.java:113-137 | a line holding only the fields before the note throws an index-out-of-bounds exception when parsed |
| AddressBook.LineBreakInNoteFails | PS1_fa15/src/edu/nyu/cs/pqs/AddressBook.java:105-142 | a contact that round-trips on its own line but whose note is a line break is saved as two lines; the first already has too few fields, so loading throws an index-out-of-bounds exception and reads no contact |
| AddressBook.AddressBook.LoadLines | PS1_fa15/src/edu/nyu/cs/pqs/AddressBook.java:111-140 | the contacts read are appended in order; the first malformed line ends the reading with its exception, keeping what was read before it |
| Stopwatches.Started | PS2_fa15/src/edu/nyu/pqs/stopwatch/impl/Stopwatch.java:51-59 | IllegalStateException exactly when running; otherwise running with start time now, laps and the end of the last lap kept |
| Stopwatches.Lapped | PS2_fa15/src/edu/nyu/pqs/stopwatch/impl/Stopwatch.java:67-80 | IllegalStateException exactly when not running; otherwise exactly one lap appended, measured from the last lap's end (or from the start when that is 0), and the last lap now ends at now |
| Stopwatches.Stopped | PS2_fa15/src/edu/nyu/pqs/stopwatch/impl/Stopwatch.java:87-92 | IllegalStateException exactly when not running; otherwise a final lap is recorded and the stopwatch stops |
| Stopwatches.OutcomeOf | PS2_fa15/src/edu/nyu/pqs/stopwatch/impl/Stopwatch.java:53-55 | a transition returns normally exactly when it succeeds, and otherwise throws its exception |
| Stopwatches.After | PS2_fa15/src/edu/nyu/pqs/stopwatch/impl/Stopwatch.java:53-55 | a transition that throws leaves the state as it was |
| Stopwatches.ClearedOnlyStarts | PS2_fa15/src/edu/nyu/pqs/stopwatch/impl/Stopwatch.java:28-35 | a new or reset stopwatch can start but cannot lap or stop |
| Stopwatches.LapAll | PS2_fa15/src/edu/nyu/pqs/stopwatch/impl/Stopwatch.java:67-80 | laps at a sequence of readings keep the stopwatch running, add one lap per reading and end at the last reading |
| Stopwatches.LapsAddUp | PS2_fa15/src/edu/nyu/pqs/stopwatch/impl/Stopwatch.java:67-80 | in a single run started from a cleared stopwatch, the laps add up to the time from the start to the last lap's end, provided no lap ends at clock reading 0 |
| Stopwatches.RestartMeasuresFromLastLap | PS2_fa15/src/edu/nyu/pqs/stopwatch/impl/Stopwatch.java:51-80 | after a stop and a new start, the first lap is measured from the previous run's last lap, so it includes the pause |
| Stopwatches.Stopwatch.constructor | PS2_fa15/src/edu/nyu/pqs/stopwatch/impl/Stopwatch.java:28-35 | the given id; not running, no laps, both times 0 |
| Stopwatches.Stopwatch.GetId | PS2_fa15/src/edu/nyu/pqs/stopwatch/impl/Stopwatch.java:42-44 | the stopwatch's id |
| Stopwatches.Stopwatch.Start | PS2_fa15/src/edu/nyu/pqs/stopwatch/impl/Stopwatch.java:51-59 | the outcome and the new state are those of Started |
| Stopwatches.Stopwatch.Lap | PS2_fa15/src/edu/nyu/pqs/stopwatch/impl/Stopwatch.java:67-80 | the outcome and the new state are those of Lapped |
| Stopwatches.Stopwatch.Stop | PS2_fa15/src/edu/nyu/pqs/stopwatch/impl/Stopwatch.java:87-92 | the outcome and the new state are those of Stopped |
| Stopwatches.Stopwatch.Reset | PS2_fa15/src/edu/nyu/pqs/stopwatch/impl/Stopwatch.java:99-106 | from any state: not running, no laps, both times 0 (so resetting twice is resetting once) |
| Stopwatches.Stopwatch.GetLapTimes | PS2_fa15/src/edu/nyu/pqs/stopwatch/impl/Stopwatch.java:114-118 | the recorded laps, in order; never throws |
| Stopwatches.Stopwatch.Equals | PS2_fa15/src/edu/nyu/pqs/stopwatch/impl/Stopwatch.java:133-145 | true exactly when the other object is a stopwatch with the same id |
| StopwatchRegistry.Ids | PS2_fa15/src/edu/nyu/pqs/stopwatch/impl/StopwatchFactory.java:44-49 | the ids of the stopwatches, no more and no fewer |
| StopwatchRegistry.IdsCardinality | PS2_fa15/src/edu/nyu/pqs/stopwatch/impl/StopwatchFactory.java:44-49 | with distinct ids there are as many ids as stopwatches |
| StopwatchRegistry.StopwatchFactory.constructor | PS2_fa15/src/edu/nyu/pqs/stopwatch/impl/StopwatchFactory.java:18-19 | no used ids, no stopwatches, and the registry invariant holds |
| StopwatchRegistry.StopwatchFactory.GetStopwatch | PS2_fa15/src/edu/nyu/pqs/stopwatch/impl/StopwatchFactory.java:34-52 | IllegalArgumentException, changing nothing, exactly when the id is null, empty or already used; otherwise a new cleared stopwatch with that id, whose id joins the used ids and which is appended to the list; distinct ids matching the used ids is preserved |
| StopwatchRegistry.StopwatchFactory.GetStopwatches | PS2_fa15/src/edu/nyu/pqs/stopwatch/impl/StopwatchFactory.java:60-64 | all created stopwatches, in creation order |
| StopwatchRegistry.StopwatchFactory.UsedIdsCount | PS2_fa15/src/edu/nyu/pqs/stopwatch/impl/StopwatchFactory.java:44-49 | as many ids are in use as stopwatches were created |

## Left out

- File I/O:
  - `saveAddressBookToFile` is modelled by `Listing`, the text it writes;
  - `loadContactsFromFile` is modelled by `LoadLines`, which works over the lines the `Scanner` returns. `ScannedLines` gives those lines for a text: it splits at "\r\n", '\r' and '\n'. Scanner's other line separators (U+0085, U+2028, U+2029) are not modelled;
  - files, `IOException` and closing are not modelled.
- The clock: `System.currentTimeMillis` is the `now` parameter of `Start`, `Lap` and `Stop`.
- Concurrency: the `synchronized` blocks in the stopwatch, its factory and the player factory. Every operation is modelled as one atomic step.
- `Collections.shuffle` becomes a nondeterministic choice of any column with room. Which column the shuffle puts first is not modelled.
- Java `int`/`long` overflow: rows, columns, counters and clock readings are unbounded integers.
- Unicode: `toLowerCase` and `equalsIgnoreCase` are modelled for ASCII letters only.
- `hashCode` of players, contacts, the address book and stopwatches: the hash values are not modelled.
- `toString` of players and stopwatches: it is not used by the modelled behaviour.
- Null references where the Java code would throw `NullPointerException`:
  - a null player or contact passed to the model or the book;
  - a null player name;
  - a null query;
  - a null listener.

  Contact fields and stopwatch ids may be null (`None`).
- The Swing view and the application wiring. Listeners receive their notifications as entries of the model's log; what a listener does when notified is not modelled, and neither is a listener calling back into the model.
- `ConnectFourGameBoard.GameBoard.constructor`: requires `rows >= 1` and `columns >= 0`. For a negative size the Java constructor throws NegativeArraySizeException when it allocates the arrays; that path is not modelled on the board itself (`Create` models it). A zero-row board is not modelled: in Java a drop before `setGameBoard` indexes out of bounds (every pointer starts at 0), and after `setGameBoard` every pointer is -1, so every drop is refused and `isWinningMove` throws IllegalArgumentException.
- `ConnectFourModel.Model.Create`: requires `rows != 0`; a zero-row board is not modelled, for the reason above. Negative sizes are modelled: IllegalArgumentException when numToWin exceeds the columns or the players clash, otherwise NegativeArraySizeException.
- Column indexes: every board and model operation requires `0 <= column < columns`. The Java code throws `ArrayIndexOutOfBoundsException` outside that range, and that error path is not modelled.
- `ConnectFourGameBoard.GameBoard.CheckForwardDiagonal`, `ConnectFourGameBoard.GameBoard.CheckBackwardDiagonal`: the scanned window's length is computed once, up front. The Java loop instead tests the board edge and the three-cells-past bound on every step. Both walk the same cells.
- Some Java methods are split into helper methods so that each proof stays small:
  - `CopyColumn` is the inner loop of the copy constructor;
  - `PutChip` is the cell write of `insertChipAt`;
  - `DropAndCheck` is the body of `checkIfWinningMove` on the copy;
  - `AvailableColumns` and `FirstWinningProbe` are the two loops of `getColumnComputerPlayer`;
  - `EndTurn` is the tail of `manageMove`.
- `ConnectFourModel.Model.ChangePlayerTurn`: the copy of the board made there is made and discarded, as in the Java code. `firePlayerTurnEvent` ignores it and hands listeners the live board.
- The canvas programs (`CanvasModel` and its views) are not part of this model.
