# Long nardy and the relay, modelled and proved

Two independent parts of the repository are modelled here.

**Long nardy** (`bot/`): a backgammon-like board game. `Rules` states the single-step rules
outright (head limit, six-point wall, bearing off) and follows the engine's loops. A full turn
must play as many dice as possible, and the larger of two different dice if only one can be
played. `Chains` says what that means for any system of steps, `Turn` applies it to the game,
and `Search` and `FinalStates` are the two memoised searches of the code, over mutable sets and
dictionaries on the heap, each proved exact. On top stand colour symmetry (`Mirror`), whole
games (`Position`, `Game`, `Outcome`), the greedy bot (`EasyBot`) and its score (`Scoring`), the network input (`Encode`),
the trained player's choice (`Choose`) and the game loop between any of these players (`Match`).

**The relay** (`relay/`): a store-and-forward server. `Mailbox`, `Prekeys` and `Channels` hold
the queue with its sockets, the key table and the channel posts, each with its history and its
invariants; `Relay` is the state machine of all handlers and timers with the safety properties
over all runs, `Replies` says exactly which frames each event sends to whom, `OneTime` says when a one-time key can be served twice, and `Reading` what a channel
reader gets in a run; `RelayServer` is the server itself, a class over mutable tables and sockets, each
of whose methods is proved to take exactly one step of that machine.

## How to read it

- A position is `Board.State`; dice are `None` or a non-empty sequence, as the engine replaces
  an emptied tuple by `None`. Python's truth values and `+1`/`-1` players are kept as numbers.
- `Turn.ObligedSteps` and `Turn.ObligedEnds` are the first steps and the end positions of full
  turns. `ObligedStepsMeaning` and `ObligedEndsMeaning` tie them, in both directions, to plain
  sequences of raw steps (`Turn.FullTurn`), with no recursion or memo in the statement.
- `Game.Reachable` means reachable from an opening by raw steps, burnt turns and throws, in any
  order the rules enable. Everything `play_game` does is such a run, and `Match.Sheet` is the
  score sheet of one game: its throws and where each turn ended.
- `Relay.Event` lists what may happen to the relay. What the code leaves open (which of several
  rows a query returns, the order of equally old rows, whether a signature is good, when a timer
  fires) is chosen by the event.
- Loops over Python sets and dictionaries take their elements in an arbitrary order.

Where comments and code disagree, the code is modelled: a flush deletes nothing
(`relay/server.js:85` says it does), an upload replaces the one-time keys (`relay/server.js:219`
says it adds them), and burning a position without dice passes the turn once more.

## Model

| member | source | states |
|---|---|---|
| Board.RouteTables | bot/nardi_engine.py:13-18 | the closed forms are the engine's tables: both routes entry by entry, positions as their inverse, heads and homes point by point |
| Board.RoutePositions | bot/nardi_engine.py:14-16 | position and point tables of a route are inverse to each other |
| Rules.CreatesSixBlock | bot/nardi_engine.py:64-77 | the scan that grows one chain per run answers true exactly when some six consecutive route points are the player's and an opposing checker is strictly behind all six on its own route, also for runs that cross the opponent's start |
| Rules.ChainSeesWindow | bot/nardi_engine.py:69-74 | an opponent is seen behind the whole run exactly when it is behind the run's last six points |
| Rules.WalledMeaning | bot/nardi_engine.py:69-74 | the forbidden wall spelled out checker by checker |
| Rules.LegalStep | bot/nardi_engine.py:80-94 | the early returns decide exactly the conjunction of the move rules |
| Rules.LegalMoveMeaning | bot/nardi_engine.py:80-94 | the legal moves spelled out: own checker, no opposing checker on the target, forward by one of the dice, no forbidden wall, and off the head only as the first checker of the turn, or as the second with fourteen left there and a double 3, 4 or 6 |
| Rules.BearDie | bot/nardi_engine.py:101-114 | the die found is the exact one, else the smallest larger one with no own checker further back; none is found exactly when no die bears the checker off |
| Rules.BearOffNeeds | bot/nardi_engine.py:97-105 | nothing is borne off unless all own checkers are on the last six positions, and only by a die that is enough |
| Rules.ExactDieBearsOff | bot/nardi_engine.py:106-108 | then the exact die always bears off |
| Rules.LargerDieBearsOff | bot/nardi_engine.py:109-114 | without the exact die a rearmost checker is borne off by the smallest of the dice that are more than enough, whenever there is one, and by no other |
| Rules.NotRearmostNeedsExact | bot/nardi_engine.py:112-113 | with an own checker further back only the exact die bears off |
| Rules.RawSteps | bot/nardi_engine.py:123-137 | the list holds every legal single step and nothing else, ordered and without repetition |
| Rules.StepDie | bot/easy_bot.py:48 | origin and target of a step determine its die, so it can be recomputed from them |
| Rules.Without | bot/nardi_engine.py:54-58 | spending a die removes exactly one occurrence of it |
| Rules.RollMeaning | bot/nardi_engine.py:40-41 | a throw gives each of two different dice once and equal ones four times, marks a double, and changes nothing else |
| Rules.BurnMeaning | bot/nardi_engine.py:61 | burning passes the turn and changes nothing on the board |
| Keys.DecimalRoundTrip | bot/nardi_engine.py:144-145 | printed numbers read back |
| Keys.JoinInjective | bot/nardi_engine.py:144-145 | a comma-joined list of signed numbers followed by a bar can be read in one way only |
| Keys.KeyInjective | bot/nardi_engine.py:144-145 | keys are equal exactly when board, borne-off counts and mover are |
| Keys.KeyText | bot/nardi_engine.py:144-145 | the key is the joined board, then White's and Black's borne-off counts, then W or B, with bars between |
| Keys.NumbersAsUsual | bot/nardi_engine.py:144-145 | numbers are printed in the usual way, with a minus sign if negative |
| Keys.ListAsUsual | bot/nardi_engine.py:144-145 | the joined numbers stand in their order with commas between |
| Chains.LongestMeaning | bot/nardi_engine.py:148-161 | no playable sequence of steps is longer than the longest count, and exactly the sequences of that length play most |
| Chains.EndsViaMeaning | bot/nardi_engine.py:148-161 | the collected ends are exactly those of the longest sequences that start with a given set of steps |
| Chains.TallyStep | bot/nardi_engine.py:153-159 | taking in one more first step replaces, extends or keeps best length and ends just as the search loop does |
| Chains.TallyAll | bot/nardi_engine.py:153-159 | after all first steps the loop's results are the longest count and its ends |
| Turn.NardyBounded | bot/nardi_engine.py:54-58 | every step spends a die, so the search ends |
| Turn.ObligedStepsMeaning | bot/nardi_engine.py:164-181 | a step may start the turn exactly when it is the first step of some sequence that plays most dice and, where only one of two different dice can be played, plays one as large as any that can |
| Turn.ObligedStepsPlayLargest | bot/nardi_engine.py:177-180 | where only one of two different dice can be played, no step of the position has a larger die than a step the turn may start with |
| Turn.ObligedEndsMeaning | bot/nardi_engine.py:164-181 | a position may end the turn exactly when some such sequence leads to it, dice left over being burnt |
| Turn.ObligedEndsExist | bot/nardi_engine.py:164-181 | every turn can be completed, and completing it plays the longest count |
| Turn.EndShape | bot/nardi_engine.py:54-61 | ends have no dice, nothing off the head, the other player to move and the same double flag |
| Search.Merge | bot/nardi_engine.py:156-159 | a longer result is copied, an equal one joined in place; the stored result it came from is not written |
| Search.Best | bot/nardi_engine.py:148-161 | the memoised search returns the unmemoised answer; every memo entry is a true answer, and no entry present before the call is altered, neither the table's reference nor the set behind it |
| Search.KeepObliged | bot/nardi_engine.py:175-180 | the entries kept are those of the obliged steps |
| Search.TurnAnalysis | bot/nardi_engine.py:164-181 | returns the longest count, exactly the pairs of the obliged steps, and exactly the keys of the obliged ends; where only one of two different dice can be played, each pair belongs to a step with as large a die as any |
| FinalStates.Best | bot/play.py:14-27 | the second memoised search returns a dictionary of exactly the ends of the longest sequences, earlier entries untouched |
| FinalStates.FinalStates | bot/play.py:10-46 | the dictionary holds exactly the obliged ends, each under its own key |
| FinalStates.IndexUnique | bot/play.py:22-25 | ends of one turn determine their dictionary, so the order of updates cannot matter |
| FinalStates.ObligedEndShape | bot/play.py:10-46 | the shape of every end, burnt turns without dice included |
| FinalStates.SearchesAgree | bot/play.py:1-5 | the keys of the dictionary equal the analysed keys; each value sits under its key, has no dice, `h = 0`, the opposite turn and the same `rd`; any other such dictionary is the same one |
| FinalStates.BothSearches | bot/play.py:1-5 | running both searches on any position gives a dictionary with exactly the analysed keys, which holds exactly the obliged ends under their own keys |
| Mirror.MirrorOf | bot/play.py:61-66 | the loop computes the mirror image |
| Mirror.MirrorInvolution | bot/play.py:61-66 | mirroring twice changes nothing |
| Mirror.MirrorWalled | bot/nardi_engine.py:64-77 | forbidden walls mirror to forbidden walls, and only they |
| Mirror.MirrorIsStep | bot/nardi_engine.py:123-137 | raw steps of the mirror image are exactly the mirror images of the raw steps |
| Mirror.MirrorNext | bot/nardi_engine.py:140-141 | stepping and mirroring commute |
| Mirror.MirrorLongest | bot/nardi_engine.py:148-161 | the mirror image has the same longest count |
| Mirror.MirrorObligedSteps | bot/nardi_engine.py:164-181 | first steps of full turns mirror exactly |
| Mirror.MirrorObligedEnds | bot/play.py:10-46 | end positions of full turns mirror exactly |
| Position.StepConserves | bot/nardi_engine.py:47-61 | checkers on the board plus borne off stay the same for each colour, and only the mover's bear-off adds to the count |
| Position.StepPips | bot/nardi_engine.py:140-141 | a move costs the mover exactly its die in pips, a bear-off at least one and at most its die; the opponent's total stays |
| Position.StepKeepsHome | bot/nardi_engine.py:97-120 | a colour that is all home stays all home under every step of either player |
| Position.StepKeepsOtherWalls | bot/nardi_engine.py:80-94 | no step puts a checker behind a wall of the opponent |
| Position.BearOffKeepsOwnWalls | bot/nardi_engine.py:117-120 | bearing off, which has no wall test, makes no forbidden wall |
| Position.PipsAndCheckers | bot/nardi_engine.py:101-120 | a colour's pips lie between its checkers on the board and 24 times as many |
| Game.ReachableIsSane | bot/nardi_engine.py:40-120 | in every reachable position neither colour has a forbidden wall, each has fifteen checkers on and off the board, a colour that has borne off is all home, and the dice are in order |
| Game.ReachableTurn | bot/train.py:96-104 | every full turn is part of such runs |
| Game.GameStepsBounded | bot/nardi_engine.py:140-141 | in any game each player makes at most 360 steps, whatever is thrown |
| Game.StepsAddUp | bot/nardi_engine.py:140-141 | the steps counted for the two players are all the steps of the run |
| Game.DiceConserved | bot/nardi_engine.py:54-58 | the dice spent along any sequence of steps and the dice left are together the dice it began with |
| Game.TurnPlaysTheThrow | bot/nardi_engine.py:40-41 | along any sequence of steps after a throw, the dice spent and the dice left are together exactly the two dice thrown, or a double four times |
| Game.HeadConstant | bot/nardi_engine.py:47-58 | within a turn, checkers on the head plus those taken off it, and the number that may leave, stay constant |
| Game.HeadRule | bot/nardi_engine.py:80-94 | in a turn at most one checker leaves the head, or two when the turn began with all fifteen there and a double 3, 4 or 6 |
| Game.TwoLeaveExactly | bot/nardi_engine.py:84-88 | from the full head exactly the doubles 3, 4 and 6 let two checkers leave in one turn, and no double lets more |
| EasyBot.EvaluateState | bot/easy_bot.py:10-30 | the accumulating loop computes the score |
| Scoring.ScoreMeaning | bot/easy_bot.py:10-30 | the score in board terms: 1000 for each checker off, minus 3 for each pip, 60 for each point with two or more, minus 35 for each checker beyond two on a point, 15 for each checker home, and 20 r squared along runs of made points |
| Scoring.RunMeaning | bot/easy_bot.py:20-29 | the run length at a position: so many positions up to it hold two or more checkers, and the one before does not |
| Scoring.LoneMoveScore | bot/easy_bot.py:10-30 | walking a lone checker by a die, outside the home and to a free point, raises the score by three times the die |
| Scoring.LoneBearOffScore | bot/easy_bot.py:10-30 | bearing a lone checker off raises it by 1000 and three for each pip it had to go, less 15 |
| Scoring.StartScore | bot/easy_bot.py:10-30 | both colours score -1475 at the start |
| EasyBot.MirrorScore | bot/easy_bot.py:10-30 | the score does not depend on the colour |
| EasyBot.OrderedSteps | bot/easy_bot.py:33-36 | the sorted list holds exactly the obliged steps, bear-offs last from each point |
| EasyBot.ObligedStepStaysOnTurn | bot/easy_bot.py:39-56 | after an obliged step, every full turn from the new position completes a full turn of the old one |
| EasyBot.FavouriteMeaning | bot/easy_bot.py:46-53 | the step taken: none leads to a better score, and of equal ones it is the first by origin and target, bearing off last |
| EasyBot.GreedyCompletes | bot/easy_bot.py:39-56 | greedy play ends in an end of a full turn if and only if there are dice; without dice it leaves the position alone |
| EasyBot.EasyTurn | bot/easy_bot.py:39-56 | the loop that takes the best-scored step, the first on ties, and analyses anew computes greedy play; its result is an end of a full turn if and only if there were dice |
| Encode.EncodeState | bot/encode.py:19-37 | the loop over the board fills the 196 inputs as defined from the mover's view |
| Encode.PointReadsBack | bot/encode.py:15-28 | the first three inputs of a point say whether it holds at least one, two and three checkers, and with twelve times the fourth they add up to its checkers |
| Encode.TotalsReadBack | bot/encode.py:35-36 | the last four inputs are the mover's and the opponent's borne-off checkers over fifteen and their pips over 360 |
| Encode.MirrorEncoding | bot/encode.py:1-4 | a position and its mirror image have the same inputs |
| Encode.EncodingLossless | bot/encode.py:19-37 | two positions have the same inputs exactly when board, mover and borne-off counts agree, or agree after mirroring one |
| Encode.EncodingInRange | bot/encode.py:15-37 | on reachable positions all inputs lie between 0 and 1 |
| Outcome.WinTypeMeaning | bot/play.py:49-58 | what each kind of win says about the loser |
| Outcome.WonWhenNoPips | bot/nardi_engine.py:184-185 | with fifteen checkers a side, the winner is exactly the player with no pip left to walk |
| Outcome.MirrorWin | bot/play.py:49-66 | mirroring swaps the winner and keeps the kind of win |
| Outcome.OutcomeLaws | bot/encode.py:40-55 | flipping is an involution, negates the equity and exchanges the players of a finished game; the equity of an outcome is the points won |
| Outcome.OutcomeMeaning | bot/encode.py:52-55 | the entries of an outcome: won, by two or more, by three, and the same for the loser |
| Outcome.EquityIsExpectedPoints | bot/encode.py:42-43 | the equity is the expected number of points of the forecast |
| Outcome.OnlyMoverWins | bot/train.py:96-104 | after a turn from an unfinished position the only possible winner is the player who moved |
| Outcome.OpeningMeaning | bot/play.py:69-72 | the larger die moves, both dice are played, and each colour has all fifteen checkers on its own head |
| Match.Start | bot/train.py:60-64 | the game opens with the first unequal throw; it fails only when all throws are equal |
| Match.PlayersObey | bot/arena.py:17-25 | the easy bot, the trained player and the random player complete every turn they are given by the rules |
| Match.PlayGame | bot/train.py:96-104 | the score sheet starts at the first unequal throw and uses the throws one by one; each turn on it is a full turn of the player to move, nobody has won before the last, and the result is the last mover with the kind of win and no pips left; there is no result only when all throws are used up |
| Choose.SortedKeys | bot/train.py:37 | the keys strictly in code-point order, each once |
| Choose.LessMeaning | bot/train.py:37 | the order of the keys: the first difference decides, and a beginning comes before |
| Choose.WorthIsEquity | bot/train.py:40-49 | a won game and a network forecast are valued on one scale: the equity for the player who has just moved |
| Choose.BestTurnUnique | bot/train.py:37-52 | the trained player's choice is determined |
| Choose.ChooseTurn | bot/train.py:34-52 | a full turn worth at least as much as every other, with the smallest key among equals; with a generator, the full turn its draw points at in the order of the keys |
| Choose.ChoiceIsColourBlind | bot/train.py:34-52 | mirrored turns are turns of the mirror image and are worth the same to any network |
| Choose.BestTurnMirrors | bot/train.py:37-52 | where one full turn is worth more than all others, the choice in the mirror image is the mirror image of the choice |
| RelayTypes.Int32Range | relay/server.js:225 | `x \| 0` lands in the signed 32-bit range, keeps the residue, and is the identity there |
| Mailbox.LoginKeeps | relay/server.js:189-211 | a login, reply and flush together keep every invariant: the whole backlog is on the socket afterwards |
| Mailbox.AcceptKeeps | relay/server.js:252-273 | accepting, confirming again or rejecting a message keeps every invariant |
| Mailbox.AcceptIsAccepted | relay/server.js:259-271 | after an accepted message table and history have grown by its row, and each open socket of the recipient has its frame with the row id |
| Mailbox.AcceptSpaces | relay/server.js:255-271 | an insertion under a client id that is no longer remembered comes more than ten minutes after the last one |
| Mailbox.SweepKeeps | relay/server.js:134-137 | the sweep forgets only client ids older than ten minutes |
| Mailbox.SweepMeaning | relay/server.js:134-137 | after the sweep exactly the stamps of the last ten minutes are remembered |
| Mailbox.CidMeaning | relay/server.js:255 | of a client id the first 64 characters are kept, and an empty one is none |
| Mailbox.LoginOnce | relay/server.js:189-211 | a login sends no row that was sent on the socket before, and none twice |
| Mailbox.AcceptOnce | relay/server.js:262-271 | a live push sends no row a second time on any socket |
| Prekeys.UploadIsSnapshot | relay/server.js:212-231 | after an accepted upload, row by row, the owner's rows of the uploaded types are exactly the uploaded keys and all other rows are untouched; any other upload changes nothing |
| Prekeys.StoredFields | relay/server.js:225 | the row of each uploaded key field by field: owner, type, id as a 32-bit number, value, signature unless empty, and the time of the upload |
| Prekeys.UploadTwice | relay/server.js:220-222 | repeating an upload does not pile up rows |
| Prekeys.HandOutKeeps | relay/server.js:56-57 | a handed-out one-time key row was never handed out before and is gone |
| Prekeys.BundleContents | relay/server.js:233-249 | a response shows a key of each type exactly when the target has one, and all it shows of a key comes from one row of that type |
| Prekeys.HousekeepAllOrNothing | relay/housekeeping.js:6-9 | all rows of a recipient go exactly when every one is older than the cutoff, otherwise none |
| Prekeys.KeysConserved | relay/server.js:34-58 | rows ever inserted are present, handed out, replaced or housekept, and add up |
| Channels.PublishAppends | relay/server.js:69 | a post is stored under its channel and number unless one is there; nothing stored changes |
| Channels.PageIsStretch | relay/server.js:70 | a page holds exactly the posts between the cursor and its last number, and is empty only at the end |
| Channels.Fetch | relay/server.js:289-293 | the answer is the ascending, gapless page of at most a hundred posts above the cursor |
| Channels.ReceivedInOrder | relay/server.js:289-295 | over repeated fetches nothing comes twice or out of order, and everything comes as stored |
| Channels.ReadToEnd | relay/server.js:289-295 | reading until a page is empty yields every post above the start if and only if no post arrived meanwhile at or below the cursor reached |
| Channels.ReadingEnds | relay/server.js:70 | a session on an unchanging table without an empty page has fewer full pages than fit into the posts above its start |
| Relay.AfterIsValid | relay/server.js:162-315 | every event keeps every invariant of queue, sockets and keys |
| Relay.RunIsValid | relay/server.js:73-315 | so does every run |
| Replies.ConnectedIsChallenged | relay/server.js:171-174 | a new connection hears the challenge with its nonce and nothing else |
| Replies.LoginIsAnswered | relay/server.js:199-209 | a login spends the nonce, sets the claimed id, and is answered by auth_ok and then the whole backlog of the id, each row once, none before an older one |
| Replies.RefusalIsAnswered | relay/server.js:200-202 | a refused login is answered by auth_fail, has spent its nonce, and changes nothing else |
| Replies.HeldUploadIsStored | relay/server.js:205-215 | an upload that came before the login is stored by it |
| Replies.RequestIsAnswered | relay/server.js:233-247 | a request is answered by the bundle on its connection, and exactly the one-time row in it leaves the table |
| Replies.FetchIsAnswered | relay/server.js:289-293 | a fetch is answered on its connection by the posts above the number asked for, ascending, all of them or the first hundred |
| Replies.MessageIsAnswered | relay/server.js:252-271 | exactly what a message makes each connection hear: the message if it is an open client of the recipient, then the confirmation if it is the sender's; a repeat is only confirmed |
| Replies.MessageIsQueued | relay/server.js:259-262 | a message is queued under the next row id for seven days; a repeat queues nothing |
| Replies.OthersHearNothing | relay/server.js:181-303 | nothing else is ever sent |
| Replies.CleanupMeaning | relay/server.js:73-81 | a cleanup keeps exactly the unexpired rows, and the key rows of recipients with one from the last thirty days |
| Replies.EveryMessageIsConfirmed | relay/server.js:255-271 | over every run, each message with a recipient, a client id and a payload, and each repeat of one, from an open connection is confirmed on it |
| Replies.ClosedStaysSilent | relay/server.js:304-315 | a closed connection hears nothing more in any run |
| Relay.NoStrandedMessage | relay/server.js:85-100 | in every state of every run, each queued row has been sent, with its id, on every open client socket logged in as its recipient |
| Relay.SentExactlyOnce | relay/server.js:85-100 | each queued row is on every open client socket of its recipient exactly once, whether from the flush or from a push |
| Relay.OnlyRecipientSees | relay/server.js:209-269 | every message frame ever sent is an inserted row, unaltered, on a socket logged in as its recipient |
| Relay.DuplicatesSuppressed | relay/server.js:130-137 | within a process two insertions with one client id are more than ten minutes apart, and a client id is confirmed only after an insertion for it |
| Relay.RowStays | relay/server.js:31-32 | a queued row is still there, unchanged, after a run exactly when the run contains neither an acknowledgement of it by its recipient nor a cleanup after its expiry |
| Relay.NoEarlyLoss | relay/server.js:259-278 | every row inserted in a run is still queued, or was acknowledged by its recipient, or is older than the queue's lifetime |
| Relay.OneTimeKeysOnce | relay/server.js:55-57 | no two responses of a run contain the same one-time key row |
| OneTime.CleanMeaning | relay/server.js:55-57 | a table holds no one-time key twice and none served before exactly when no requests on it can serve a key twice |
| OneTime.UploadStaysClean | relay/server.js:219-227 | an upload keeps the table so exactly when, if accepted, its one-time keys are new and differ from each other |
| OneTime.CleanExactly | relay/server.js:212-249 | along a run the table stays so, counting what was served before, if and only if every accepted upload offers only such keys |
| OneTime.NoKeyTwice | relay/server.js:55-57 | in such a run no two responses contain the same one-time key of the same owner, under whatever ids |
| OneTime.BadRunRepeats | relay/server.js:212-249 | any other run has a beginning after which one or two requests make two responses contain the same key |
| OneTime.RepeatsExactly | relay/server.js:212-249 | both together: every accepted upload of a run offers only new and different keys if and only if at no point of it two requests can make the relay serve a key again |
| OneTime.KeyServedTwice | relay/server.js:223-249 | a concrete run of a new relay in which a key is uploaded again after it was handed out, under any id, and is served again |
| Relay.KeysConservedInRun | relay/server.js:46-57 | conservation of prekey rows over every run |
| Relay.PostsStay | relay/server.js:281-287 | a stored post never changes or disappears over any run |
| Reading.FetchesAreSession | relay/server.js:289-295 | in any run, the answers to a reader who asks from the last number received form one reading session over a growing table |
| Reading.AnswersAreSent | relay/server.js:289-293 | over every run, the answers of a reader are exactly the pages of the channel sent on its connection, in order |
| Reading.ReaderGetsAll | relay/server.js:289-295 | in any run, a reader who follows its cursor until it is sent an empty page has been sent every post above its start, each once and in order, if and only if none of its answers came after a new post between its start and its cursor of that time |
| Reading.ReaderStops | relay/server.js:289-295 | in a run without posts, as long as no page sent is empty, all but the last hold a hundred posts, so they end with the posts above the start |
| Reading.LatePostIsMissed | relay/server.js:281-295 | a concrete run of a new relay in which a post below the cursor comes in between and is never sent |
| RelayServer.InsertByAge | relay/server.js:29 | the backlog is listed oldest first |
| RelayServer.DeleteKinds | relay/server.js:224 | the loop over the types deletes exactly the owner's rows of those types |
| RelayServer.ReplaceKeys | relay/server.js:223-227 | the transaction stores exactly the snapshot in place of the old rows, or rolls back when a key lacks type or value |
| RelayServer.Server.constructor | relay/server.js:13-70 | a process started on any tables, fresh or as found, without connections or remembered client ids, is a start of the state machine |
| RelayServer.ReleasedMeaning | relay/server.js:306-307 | giving back a place lowers the count of its address by one, and no other |
| RelayServer.FailureFreesTwo | relay/server.js:304-314 | when the error and the close handler both run for a connection, an address with two or more places taken loses two of them, and one with a single place that one |
| RelayServer.Server.OnConnection | relay/server.js:162-180 | a connection is refused without a trace exactly when its address has twenty places taken; any other is counted and refines the connection event: challenged, not logged in, a member of the clients |
| RelayServer.Server.OnAuth | relay/server.js:189-211 | refines the login event: one attempt per challenge, identity, reply, waiting upload, flush, in that order |
| RelayServer.Server.FlushQueue | relay/server.js:86-100 | sends the whole backlog of the id, oldest first, and deletes nothing |
| RelayServer.Server.OnUpload | relay/server.js:212-231 | refines the upload event: held before login, refused under another id |
| RelayServer.Server.OnRequest | relay/server.js:233-250 | refines the request event: one one-time key leaves the table as it is sent |
| RelayServer.Server.OnMessage | relay/server.js:252-273 | refines the message event, with pushes to all open sockets of the recipient |
| RelayServer.Server.OnAck | relay/server.js:275-279 | refines the acknowledgement event: only the recipient's takes effect |
| RelayServer.Server.OnChannelPost | relay/server.js:281-287 | the early return and the insertion that ignores a taken number refine the post event |
| RelayServer.Server.OnChannelFetch | relay/server.js:289-296 | refines the fetch event |
| RelayServer.Server.CleanupTTL | relay/server.js:73-83 | refines the cleanup event: expired rows, then idle owners' keys |
| RelayServer.Newest | relay/housekeeping.js:7-8 | the maximum per recipient: an upper bound of its rows' stamps, and one of them |
| RelayServer.StaleRows | relay/housekeeping.js:7-9 | the rows of recipients whose maximum is below the cutoff are exactly the rows of recipients all of whose rows are |
| RelayServer.Server.HousekeepPrekeys | relay/housekeeping.js:6-9 | deleting by the maximum per recipient refines housekeeping, and the number of rows removed is returned |
| RelayServer.Forget | relay/server.js:135-136 | the loop drops exactly the stamps below the cutoff |
| RelayServer.Server.SweepCids | relay/server.js:134-137 | refines the sweep event |
| RelayServer.Server.OnClose | relay/server.js:304-309 | refines leaving the clients with a closed connection, and gives a place of the address back |
| RelayServer.Server.OnError | relay/server.js:310-315 | refines leaving the clients while the connection may still be open, and gives a place back |

## Left out

- Search.KeepObliged: the selection of entries stands twice in the source (`bot/nardi_engine.py:175-180`, `bot/play.py:37-42`); it is one generic method here, used by both searches.
- Match.PlayGame: the random generator is a finite list of throws, and the method returns `None` when they run out, because a game need not end on every infinite sequence of throws.
- Choose.ChooseTurn: a draw of the generator is an arbitrary function that answers a range with an index (`Match` has one for each turn of the game), and the network is asked position by position instead of in one batch.
- Encode.EncodeState: floating point is modelled by real numbers, so rounding is not captured.
- RelayServer.Server.OnConnection: no claim that the count of an address is its number of live connections, since both handlers of a failing connection lower it.
- RelayServer.Server.OnAuth: the signature check and the derivation of the id from the key are one boolean; an exception in them counts as a failed check, and an accepted id is never empty.
- RelayServer.Server.CleanupTTL: without the checkpoint of the journal; the queue's lifetime is the default of seven days.
- RelayServer.Server.OnChannelPost: the creation time of a post is not kept, as nothing reads it.
- OneTime.RepeatsExactly: for connections named by values; over the server's own socket objects the two halves stand separately, in `OneTime.BadRunRepeats` and `OneTime.NoKeyTwice`.
- Mailbox.AcceptSpaces: holds within one process and for a clock that does not go back; client ids are forgotten on restart.
- Progress of the game: no claim that a player can move for some throw. A wall that wraps its owner's own end and start is not seen by the wall test.
- Heartbeat and login timeout (`relay/server.js:143-160`, `relay/server.js:176`): when a connection is terminated is left open; that it may be at any time is modelled.
- Dispatch of frames by type, JSON parsing, and recipients, ids or payloads that are not strings; key ids and sequence numbers that are not integers.
- Durability, the write-ahead log, TLS, the HTTP page and logging. A restart is a new run on the tables as found.
- Training (`train_game`, `to_white`, `bot/td_net.py`), `bot/arena.py`, the checking scripts and oracle files: floating point, files and test harnesses.
- `MessengerApp`, `LibCryptSafe`, `TransportLayer`, the Android client and the older `infra/relay`: cryptography library calls, plumbing, and a relay without acknowledgements.
