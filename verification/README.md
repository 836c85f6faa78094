# Configuration replication between a Telegram-facing server and a board

A Python server (`websocket/coap_websocket.py`) polls Telegram, registers and removes chats, and accepts
configuration messages. What one poll changed travels to a board in one compact CoAP payload. The board
(`src/coap_post.c`, `src/configuration.c`) parses that payload in place and keeps the chats in a table of ten
slots. In the other direction the board formats its settings, its live chat ids and a message into a bounded
buffer, and the server reads them back. A script (`websocket/update_chat_ids.py`) writes the chat list a board is
built with. This project models these parts in Dafny and proves what they keep, alone and together.

## How the model is built

| file | models |
|---|---|
| `Text.dfy`, `Decimal.dfy`, `PythonText.dfy`, `Dictionaries.dfy` | byte strings, numerals, the Python string operations, insertion-ordered dictionaries |
| `CStrings.dfy` | `strtok` with its saved pointer (section 7.24.5.8 of ISO C11), `strchr`, `strcat`, cutting a token, on `char` buffers |
| `ChatTable.dfy`, `Commands.dfy` | the slot table and the commands of a payload, as values |
| `Board.dfy` | the firmware's configuration as a class over its slots and its response buffers |
| `Codec.dfy` | `_encode_message` and what it is meant to make the board do |
| `UpdateServer.dfy`, `PollProperties.dfy`, `PollRuns.dfy` | the server as a class; one poll without its loop; runs of polls |
| `Telegram.dfy` | what a message means to the server, said by its characters |
| `Delivery.dfy`, `Replication.dfy` | messages on the table; lossy runs |
| `Lockstep.dfy`, `Mirror.dfy`, `Drift.dfy` | lossless runs: ids and settings; names; concrete cycles at which the board drifts |
| `Requests.dfy`, `Client.dfy` | the two requests: formatting, sending, parsing |
| `Broadcast.dfy`, `CoapThread.dfy` | both directions together: whom a message reaches; one cycle of the thread on the objects |
| `ChatList.dfy`, `Deployment.dfy` | the script's list, and the board that starts from it |

Code that works by changing state is a method over arrays or object fields, proved against a function; the results
are lemmas about those functions. What the basic functions mean is itself stated apart from how they compute it: by
characters, positions and first differences. Strings are their bytes, so a name is the UTF-8 text of the name. Every lemma
carries `{:induction false}`: its proof is what its body says.

The hypotheses the code needs are named predicates. `Codec.IsCleanName` and `IsWellFormedChat` say which names and
ids a payload can carry. `Delivery.NoSharedNames` and `AreCompatible` say that among the live slots and the chats of
one message no name belongs to two ids, and none is the removed id. `Lockstep.IsOrderlyCycle` asks that of one poll's
answer, and that the chats fit the table (`HasRoom`); nothing is asked across the cycles of a run. Settings need only
`Lockstep.AnswerIsRead`: the names are clean and the answer fits. In lossy runs only the messages that are delivered
need clean names (`Replication.AreClean`), and nothing is asked of whoever speaks. `LastDepartureIsClean` and `RemovalsAreClean`
speak of who leaves and comes back within one poll. `PollRuns.IsTimely` says that the clock does not run backwards and
no message is from the future. `Client.AreCarried` and `Fits` say which texts the form can carry and that it fits.

## What the code does not do

Where an expected property is false of the code, the exact condition under which it holds is proved; where the list
names a second lemma, that one gives a concrete input on which the property fails.

* A removed user comes back by itself. "remove me" is only special while it is fresh; the next poll of the same
  list registers the chat again (`PollRuns.RemovedUserReturns`; exactly when polling again is idle: `PollRuns.RePoll`).
* The last interval request need not win: a last request for the stored value does not cancel an earlier one
  (`PollProperties.LastRequestWins`; two such messages: `PollProperties.LastRequestLoses`).
* A request for the interval the server has stored is not sent, although the board may have another one
  (`Lockstep.IntervalReaches`: exactly when a request reaches the board; `Drift.DefaultIsNotSent`: the server starts
  with 2 minutes and the firmware with 5).
* A message that is listed only after a poll that emitted something at or after its date comes too late: its config is
  ignored, and its "remove me" registers the chat (`PollRuns.FreshExactly`, `PollRuns.LateMessage`).
* Only one removal is sent per poll, and adds are applied before it, so the board can drift from the server
  (`Lockstep.CoverageKept`, `Lockstep.SyncKept` and `Mirror.MirrorKept`: exactly when it does not). Somebody who
  leaves and speaks again in one poll is lost to the board (`Drift.ReturnIsLost`), and when two leave in one poll the
  first of them stays on it (`Drift.FirstOfTwoRemovalsIsLost`).
* A lost add is never sent again (`PollRuns.NeverEmittedAgain`), so that chat never reaches the board
  (`Replication.LostAddStaysLost`).
* When the server meets an update it cannot process, the removals it made before are kept and never sent
  (`CoapThread.BrokenListLosesRemovals`).
* `websocket/README.md:190` promises at most ten registered users; the server has no such limit. For every number of
  chats from eleven on there is a poll that registers them all and accepts two settings, and whose answer does not fit
  the board, which executes none of it (`Codec.EncodedLength`: with ten it fits; `Drift.CrowdIsLost`).
* A first name can be read as a setting (`Codec.RoundTrip`: exactly when it is not; `Drift.NameIsReadAsInterval`).
* Two chats with the same first name share one slot (`ChatTable.SetGainsId`), and a pair split over two slots is
  duplicated (`ChatTable.SetCrossed`).
* A saved chat list longer than 129 characters is cut by the firmware's copy (`Deployment.ListIsRead`; five ordinary
  chats suffice: `Deployment.FiveLongNamesAreCut`).
* A first name with a comma or a colon does not survive the saved list (`ChatList.SaveThenLoad`; a name that comes back
  cut, so that running the script twice writes two different lists: `ChatList.CommaIsLost`).
* The board takes the text of a server error for a chat (`Replication.ServerErrorBecomesChat`); a long one takes a hole
  of its own, every time, until the table is full (`Replication.ErrorTakesSlot`).

## Model

| member | source | states |
|---|---|---|
| CStrings.Scanner.Next | src/coap_post.c:83-87 | one `strtok` call returns the next maximal delimiter-free run, ends it with NUL, and leaves every byte from the saved pointer on unchanged |
| CStrings.Cut | src/coap_post.c:53-59 | `*colon = '\0'` leaves the text before and the text after the cut readable as C strings and no other byte changed |
| Text.TokensAreNonEmptyPieces | src/coap_post.c:83-87 | the scanned tokens are exactly the non-empty pieces of a plain split, in order |
| Text.TokensOfJoin | src/coap_post.c:83-87 | scanning a join of non-empty delimiter-free parts gives the parts back |
| Decimal.AtoiOfDec | src/coap_post.c:43 | `atoi` undoes decimal printing |
| PythonText.ToIntOfDec | websocket/coap_websocket.py:168 | `int` undoes decimal printing, negative numbers included |
| PythonText.StripTrims | websocket/coap_websocket.py:124 | `strip` leaves a text that is the original without whitespace at both ends, and nothing exactly when all is whitespace |
| PythonText.StripOfPadded | websocket/coap_websocket.py:124 | a text without whitespace at its ends is what `strip` leaves of it in any padding |
| PythonText.SpacesAre | websocket/coap_websocket.py:124 | which ten characters are whitespace |
| PythonText.LowerIsByLetter | websocket/coap_websocket.py:135 | `lower` turns each of the 26 capital letters into its small one and keeps every other character |
| PythonText.ToIntAccepts | websocket/coap_websocket.py:168 | `int` accepts exactly an optional sign and digits with single underscores between them, in whitespace |
| PythonText.ToIntValue | websocket/coap_websocket.py:168 | and gives the decimal value of the digits, negative after a minus sign |
| Dictionaries.PutExisting | websocket/coap_websocket.py:146 | an existing key keeps its place, takes the new name, and every other item stays where it is |
| Board.Config.SetChatId | src/configuration.c:64-90 | the two loops over the slots do what the table function says: first match by name or id, else first hole, else nothing |
| Board.Config.RemoveChatByIdOrName | src/configuration.c:173-188 | clears exactly the first slot whose name or id is the key |
| Board.Config.GetChatIdByName | src/configuration.c:131-138 | the id of the first slot with that name |
| Board.Config.GetChatIdsString | src/configuration.c:140-153 | whatever the holes, the `strcat` loop leaves the comma-joined live ids in the static buffer, in bounds |
| Board.Config.ProcessConfigCommand | src/coap_post.c:33-62 | one token of the buffer has the effect of its command, and no byte after the token changes |
| Board.Config.ExecuteTokens | src/coap_post.c:82-87 | the loop executes every token once, in order, and ends, although tokens are edited during the scan |
| Board.Config.ConfigControl | src/coap_post.c:65-88 | for any bytes at all the settings become those after the payload's commands; too large and status payloads change nothing |
| Board.Config.ConfigInit | src/configuration.c:13-46 | the in-place loop over the copied list fills the slots with its first ten entries and leaves holes behind |
| ChatTable.ListFillsSlots | src/configuration.c:23-45 | the first ten entries of a list that fits go to the slots of their positions, with holes behind |
| ChatTable.NamedEntry | src/configuration.c:32-36 | an entry is a name and an id around its first colon, each cut to its field |
| ChatTable.UnnamedIdIsLive | src/configuration.c:37-41 | an entry without a colon is a live id under an empty name |
| ChatTable.SetOnTarget | src/configuration.c:64-90 | whatever the names and ids and however long: the pair, each part cut to its field, replaces the first slot with the name or the id, or else the first hole; without either the table stays as it is |
| ChatTable.SetCutRefines | src/configuration.c:64-90 | that replaces one entry by the cut pair, and keeps a bijection exactly when no other live slot holds the cut name or the cut id |
| ChatTable.RemoveFirst | src/configuration.c:173-188 | on any table the first slot whose name or id is the key becomes empty, and nothing else changes |
| ChatTable.NameIsFirst | src/configuration.c:131-138 | on any table lookup gives the id of the first slot with the name, and none exactly when no slot has it |
| ChatTable.LiveIdsInOrder | src/configuration.c:140-153 | the listed ids stand in slot order: before each there are as many as live slots before it |
| Commands.SettingTokens | src/coap_post.c:33-48 | a token of a letter and digits, whatever follows, is the setting or removal of those digits |
| Commands.SettingTokensSet | src/coap_post.c:33-48 | and the board then changes that one thing and nothing else, whatever the number |
| Commands.OtherTokens | src/coap_post.c:51-60 | any other token is a chat split at its first colon, and nothing without one |
| Commands.PayloadTokens | src/coap_post.c:65-88 | a payload that fits is the commands of its tokens in order, and nothing behind a NUL is read |
| Commands.LongPayload | src/coap_post.c:68-74 | a payload of 303 bytes or more is not executed |
| ChatTable.SetRefines | src/configuration.c:64-90 | on a bijective table, setting a pair keeps it a bijection exactly when the pair is uncrossed, and then acts as insert, rename or rebind on the set of entries, or as nothing when full |
| ChatTable.SetCrossed | src/configuration.c:71-80 | a crossed pair overwrites the earlier of its two slots and leaves the later one, so it is there twice |
| ChatTable.SetGainsId | src/configuration.c:64-90 | on any bijective table, the id is gained and none lost exactly when the first slot with the name or the id has the id, or there is no such slot and there is a place; for an uncrossed pair: when no other id has the name and there is a place |
| ChatTable.RemoveRefines | src/configuration.c:173-188 | removal keeps the bijection, and deletes exactly the entries with that key unless the key is one slot's name and another's id |
| ChatTable.LookupRefines | src/configuration.c:131-138 | lookup by name finds an id exactly when that pair is an entry |
| ChatTable.LiveIdsAreIds | src/configuration.c:140-153 | the join lists every live id, and as many as there are |
| Codec.RoundTrip | websocket/coap_websocket.py:205-223 | the board executes exactly the intended commands in order if and only if every added name is clean, the message fits, and a removal is that of a positive id |
| Codec.WireFormat | websocket/coap_websocket.py:205-223 | the bytes of a message, piece by piece, in their order |
| Codec.EncodedLength | src/coap_post.h:24-30 | a message with n well-formed chats has at most 20 + 27 n bytes, so at most 290 of 303 with ten |
| Codec.LongestMessage | websocket/coap_websocket.py:205-223 | that bound is attained for every n for which there are n ids of eleven digits, that is below 90 000 000 000 |
| Codec.ElevenMayNotFit | src/coap_post.c:68-74 | for every such n from eleven on there is a legal message of n chats that is too large and is then not executed at all; CrowdIsLost shows a poll that sends one |
| UpdateServer.UpdateResource.ProcessUpdate | websocket/coap_websocket.py:122-182 | one iteration of the loop, with its early exits, has the effect of the step function |
| UpdateServer.UpdateResource.LoopOverUpdates | websocket/coap_websocket.py:117-182 | the loop leaves the variables and the chats of the fold, and nothing else changed |
| UpdateServer.UpdateResource.Commit | websocket/coap_websocket.py:185-196 | the commit leaves the state, and returns the answer, of the poll function |
| UpdateServer.UpdateResource.RenderPost | websocket/coap_websocket.py:93-203 | a body that cannot be parsed, a missing field and a failed fetch leave the state unchanged; an update that cannot be processed interrupts the loop and leaves only the deletions made before it; otherwise the updates are polled |
| PollProperties.EmittedInterval | websocket/coap_websocket.py:159-172 | the emitted interval is the last accepted request that differs from the stored one; none is emitted exactly when there is none |
| PollProperties.EmittedFeedback | websocket/coap_websocket.py:177-182 | the same for the feedback |
| Telegram.ConfigExactly | websocket/coap_websocket.py:149-157 | which texts are configs and what they hold: trimmed, "config " in any letter case, password, space, key, space, value, with no space in password and key |
| Telegram.IntervalExactly | websocket/coap_websocket.py:149-172 | what is accepted as an interval request: a new message in that format with the server's password, the key "interval" and a number from 1 to 120 |
| Telegram.FeedbackExactly | websocket/coap_websocket.py:149-182 | the same for the feedback, "0" or "1" |
| Telegram.SettingsWereAuthorised | websocket/coap_websocket.py:159-182 | for every setting a poll sends, some message of it is new, in the format, with the server's password and the setting's key, and its value is what is sent |
| Telegram.OtherPasswordIsIgnored | websocket/coap_websocket.py:159-162 | a config message with another password, at the end of any list, leaves both settings of the poll as they were |
| Telegram.RemovalExactly | websocket/coap_websocket.py:132-135 | a removal is a new message that is "remove me" in any letter case with whitespace around it |
| Telegram.RegistersExactly | websocket/coap_websocket.py:129-146 | what registers a chat: a text that is not all whitespace, an id, a first name, and no removal |
| PollProperties.ConfigIsRead | websocket/README.md:196-199 | the documented format is read: the text splits into the password, the key and the value it was written with, whatever spaces the value holds inside |
| PollProperties.IntervalIsRead | websocket/coap_websocket.py:148-172 | a fresh message in that format with the right password and a value in 1..120 is an accepted interval request for that value |
| PollProperties.LastRequestWins | websocket/coap_websocket.py:166-172 | the stored interval is the last request exactly when that request differs from the old value or all requests equal it |
| PollProperties.LastFeedbackWins | websocket/coap_websocket.py:177-182 | the same for the feedback |
| PollProperties.LastRequestLoses | websocket/coap_websocket.py:171-172 | whoever asks for any new interval and then for the stored one gets the new one |
| PollProperties.ChatsAfterFold | websocket/coap_websocket.py:132-142 | the loop deletes exactly the registered chats that freshly asked to leave, and changes no name |
| PollProperties.RemovalIsLastDeparture | websocket/coap_websocket.py:135-138 | the one removal sent is the last departure of the poll, and there is one exactly when somebody left |
| PollProperties.AddedAreJoined | websocket/coap_websocket.py:144-146 | the added chats are exactly those that said something while unregistered or after leaving, each under its last such name |
| PollProperties.AddedInOrder | websocket/coap_websocket.py:144-146 | the added chats stand in the order in which they joined first |
| PollRuns.Members | websocket/coap_websocket.py:122-189 | a chat is registered after a poll exactly when it was and did not leave, or it joined |
| PollRuns.RePoll | websocket/coap_websocket.py:122-196 | polling the same list again changes nothing exactly when the first poll changed nothing or every chat that ever spoke is registered after it |
| PollRuns.RePollWithoutRemovals | websocket/coap_websocket.py:122-196 | without a "remove me" the second poll answers "No Updates" and keeps the whole state |
| PollRuns.RemovedUserReturns | websocket/coap_websocket.py:132-146 | a chat that left and did not speak again is unregistered after the poll and registered after the next one |
| PollRuns.LastUpdateGrows | websocket/coap_websocket.py:190 | in a timely run `last_update` never decreases and never passes the clock |
| PollRuns.FreshExactly | websocket/coap_websocket.py:132-190 | in a timely run a dated message is fresh at a poll exactly when it is later than the start and no earlier poll emitted anything at or after its date |
| PollRuns.LateMessage | websocket/coap_websocket.py:132-164 | otherwise its config is not authorised, it is no removal, and whatever its text it registers a chat that is not registered |
| PollRuns.AtMostOnce | websocket/coap_websocket.py:132-192 | after an emitting poll no message it saw is fresh, a removal or an authorised config in any later poll |
| PollRuns.SettingsProvenance | websocket/coap_websocket.py:159-188 | every change of a stored setting in a run traces to a fresh message of that poll with the right password |
| PollRuns.DepartureProvenance | websocket/coap_websocket.py:132-142 | a chat leaves only in a poll with a fresh "remove me" from it |
| PollRuns.MembershipProvenance | websocket/coap_websocket.py:144-146 | every registered chat was there at the start or once sent a non-empty text under a non-empty first name |
| PollRuns.NeverEmittedAgain | websocket/coap_websocket.py:144-146 | over whole runs, a registered chat that does not leave stays and is never emitted again |
| Delivery.SetAllExact | src/configuration.c:64-90 | when no name is shared by two ids, the table ends with exactly the old and the new ids if and only if they fit its slots |
| Delivery.ApplyEntries | src/coap_post.c:82-87 | a message with room leaves exactly the chats it carries and the old ones with other ids, names included, without the removed one |
| Delivery.ApplyTwice | src/coap_post.c:65-88 | a message's chats and removal applied twice leave every slot as applied once, even when the removed chat is among the added |
| Replication.DeliverEffect | src/coap_post.c:65-88 | delivering a clean message that fits sets exactly what changed and applies the chats, then the removal |
| Replication.StatusIsHarmless | src/coap_post.c:76-80 | the two status answers change nothing |
| Replication.RefusalIsHarmless | src/coap_post.c:51-60 | the two fixed refusals, which the board does not recognise as such, hold no command |
| Replication.ServerErrorBecomesChat | src/coap_post.c:51-60 | whatever the error's text, if the answer fits the first command the board executes is to set a chat; it fits exactly up to 280 bytes |
| Replication.ErrorTakesSlot | src/configuration.c:64-90 | an error longer than an id and without a separator fills the first hole, cut to both fields, or changes nothing when the table is full |
| Replication.PollEmitsLegal | websocket/coap_websocket.py:117-192 | a poll of well-formed updates emits settings in range, distinct well-formed chats and the removal of a registered chat |
| Replication.Safety | src/coap_post.c:65-88 | whatever is lost, repeated or reordered, if the delivered names are clean: every id on the board is initial or that of a chat a delivered message adds, cut to the field; interval and feedback are initial or those of a delivered message; the slots stay ten |
| Replication.BoardSettingsWereAsked | websocket/coap_websocket.py:159-182 | over every such run the board's interval and feedback are initial or were asked for by a fresh message with the right password |
| Replication.LostAddStaysLost | websocket/coap_websocket.py:144-146 | a registered chat whose adding messages are lost does not reach the board while it does not leave, whatever else is polled and delivered |
| Replication.SleepIsBounded | src/main.c:74 | in such runs the sleep stays within 60000..7200000 ms when the initial interval is in range |
| Lockstep.CycleConserves | src/main.c:49-51 | one lossless cycle: the board's ids become the old and the added ones without the removed one, and the table stays a bijection |
| Lockstep.DuplicateIsHarmless | src/coap_post.c:65-88 | delivering the cycle's answer a second time changes nothing on the board |
| Lockstep.RepeatsAreHarmless | src/main.c:41-75 | over a whole orderly run, however often each answer is repeated before the next poll, the end is that of the run without repetitions |
| Lockstep.CoverageKept | websocket/coap_websocket.py:215-220 | every registered chat stays on the board exactly when the chat whose removal is sent does not come back in the same poll |
| Lockstep.SyncKept | websocket/coap_websocket.py:135-138 | board and server stay equal exactly when the last chat to leave stays away and every other one that left comes back |
| Lockstep.ConservingRun | src/main.c:41-75 | every cycle of an orderly run conserves ids, and the run ends healthy |
| Lockstep.CoveredRun | src/main.c:41-75 | over a whole orderly run the board covers the server throughout exactly when no sent removal comes back in its own poll |
| Lockstep.SyncRun | src/main.c:41-75 | over a whole orderly run board and server stay equal throughout exactly when the removals of every poll are clean |
| Lockstep.SettingsFollow | websocket/coap_websocket.py:166-188 | after any run whose answers are read, whatever its chats, the board's interval and feedback are the server's latest once one was emitted, and until then both are unchanged |
| Lockstep.IntervalReaches | websocket/coap_websocket.py:166-172 | the last interval request is on the board after the cycle exactly when it differs from the stored value, or every request is for that and the board has it |
| Lockstep.FeedbackReaches | websocket/coap_websocket.py:177-182 | the same for the feedback |
| Lockstep.SleepFollows | src/main.c:74 | after a poll whose last request is for n minutes the thread sleeps n minutes exactly when that request reaches the board |
| Lockstep.SleepStays | src/main.c:74 | a poll that sends no interval leaves the sleep as it was |
| Lockstep.OrderlyRunIsRead | src/coap_post.h:24-30 | in an orderly run every answer fits and is read |
| Mirror.CycleEntries | src/main.c:49-51 | one lossless cycle, names included: the live slots become the added chats and the old ones with other ids, without the removed one |
| Mirror.MirrorInSync | src/configuration.c:131-153 | the live slots are exactly the registered chats under their names if and only if the board is in sync and holds every registered chat under its name |
| Mirror.MirrorKept | websocket/coap_websocket.py:215-220 | every registered chat stays on the board under the name the server has for it exactly when the chat whose removal is sent does not come back in the same poll |
| Mirror.MirroredRun | src/main.c:41-75 | the same over a whole orderly run |
| Drift.ReturnIsLost | websocket/coap_websocket.py:132-146 | a concrete cycle: a mirrored board loses a chat that leaves and speaks again in one poll and stays registered |
| Drift.FirstOfTwoRemovalsIsLost | websocket/coap_websocket.py:135-138 | a concrete cycle: two chats leave, and the first of them stays on the board although it is no longer registered |
| Drift.CrowdIsLost | websocket/coap_websocket.py:144-192 | for every n from eleven on, a poll of a fresh server that registers n chats and stores two settings while no board next to it changes |
| Drift.DefaultIsNotSent | src/config_constants.h:34-36 | a concrete cycle: an accepted request for 2 minutes leaves the board at 5 |
| Drift.NameIsReadAsInterval | src/coap_post.c:40-43 | a concrete cycle: a first name becomes the board's interval although nobody asked for one |
| CoapThread.RunCycle | src/main.c:49-74 | on the objects: the update request is sent, what arrives is handled and its reply executed; the temperature goes to everyone on the board before or after that; the sleep is 60000 ms for each minute of the interval then set |
| CoapThread.RepliesAre | websocket/coap_websocket.py:104-116 | the bytes of each reply that is not an answer |
| CoapThread.AnswersAre | websocket/coap_websocket.py:185-196 | a poll that recorded nothing is answered "No Updates", any other with the message of what it recorded |
| CoapThread.Sizes | src/config_constants.h:19-27 | the numbers of slots and bytes of the fields and buffers |
| CoapThread.TemperatureReaches | src/main.c:53-55 | what the thread sends is read as the broadcast: it reaches every registered chat exactly when the table it was sent with is covered, and these alone, each once, exactly when it is in sync |
| CoapThread.ExchangeIsCycle | websocket/coap_websocket.py:93-196 | when the request fits and its values survive the parser, that is one cycle of the modelled system, or nothing when fetching fails |
| CoapThread.OtherExchanges | websocket/coap_websocket.py:104-106 | no other request changes the server, and none the board unless its body cannot be parsed |
| CoapThread.BrokenListLosesRemovals | websocket/coap_websocket.py:132-203 | when an update cannot be processed, exactly the chats that asked to leave before it are gone, nothing else changed on the server, and no later poll sends the removal of one that stays away |
| Client.Sender.PrepareAndSend | src/coap_post.c:164-224 | the buffer holds header, form and zeros, and what is sent is as many bytes as the payload may have, from the front |
| Client.Sender.PostSend | src/coap_post.c:235-274 | the recipients are one named chat or all live ids; an unknown name sends nothing |
| Client.Sender.PostGetUpdates | src/coap_post.c:277-298 | what is sent for an update request is the form of url and token behind the header |
| Client.SentBytes | src/coap_post.c:164-224 | a form is refused exactly when header and form take 448 bytes or more; each byte of what is sent otherwise |
| Client.RecipientsAre | src/coap_post.c:249-262 | to everyone means all live ids, a name means the first slot with it, and nothing is sent without one |
| Client.ReceivedExactly | src/coap_post.c:216-218 | for any sizes, the server finds the form and zeros behind it, cut where the count of bytes sent ends, or nothing |
| Client.JoinedIds | src/configuration.c:140-153 | for any holes the join is at most 119 characters for its 140-byte buffer, and splitting it gives the live ids in slot order |
| Client.ReceivedIsComplete | src/coap_post.c:216-218 | a form arrives whole exactly when it fits with the header counted twice, and zeros follow it |
| Client.BroadcastArrives | websocket/coap_websocket.py:42-59 | end to end, for any message whose form fits, the server reads exactly the live ids in slot order and the message, or finds no recipient |
| Client.NamedMessageArrives | src/coap_post.c:249-263 | end to end, a message to one name reaches exactly the id stored under it |
| Client.BroadcastFits | src/coap_post.h:24-30 | with bounded settings, a header of at most 92 bytes and a message of the firmware's size the form fits, wherever the holes are |
| Broadcast.BroadcastReaches | websocket/coap_websocket.py:59-65 | a broadcast reaches every registered chat exactly when the board covers the server, and the registered chats alone, each once, exactly when it is in sync |
| Broadcast.BroadcastAfterRun | src/main.c:41-75 | after any orderly run with clean removals a broadcast reaches exactly the chats then registered, each once |
| Broadcast.NamedMessageAfterRun | src/main.c:41-75 | after any orderly run in which no sent removal comes back, a message to a registered chat's name reaches that chat alone |
| Client.UpdateRequestArrives | websocket/coap_websocket.py:95-106 | end to end, when the request fits the server reads its url and token if and only if they hold no form delimiter and no character that is filtered |
| Requests.MessageArrives | websocket/coap_websocket.py:42-59 | whatever zeros follow, the parsed request is the formatted one if and only if url, token and text hold no form delimiter |
| Requests.ItemSets | websocket/coap_websocket.py:43 | each item sets its key, so the last one wins, and an item without exactly one equals sign makes the body malformed |
| Requests.AnyMessage | websocket/coap_websocket.py:42-59 | a message request with any fields in any order: what is read from it, and exactly when fields are missing |
| Requests.AnyUpdate | websocket/coap_websocket.py:95-106 | the same for an update request |
| Requests.MalformedExactly | websocket/coap_websocket.py:96 | a body is malformed exactly when some item has not exactly one equals sign |
| Requests.PrintableOf | websocket/coap_websocket.py:101-102 | the filter keeps the characters from space to tilde, in their order |
| Requests.WithoutOf | websocket/coap_websocket.py:49 | removing a character keeps the others, in their order |
| Requests.UpdateArrives | websocket/coap_websocket.py:95-102 | whatever zeros follow, the url and the token are read back if and only if they hold no form delimiter and only printable characters; the filter removes the zeros |
| ChatList.LoadExistingChatIds | websocket/update_chat_ids.py:41-56 | the loop builds the dictionary of the loading function |
| ChatList.EntryExactly | websocket/update_chat_ids.py:49-52 | an entry is split at its first colon, and one without a colon is skipped |
| ChatList.LastEntryWins | websocket/update_chat_ids.py:49-52 | an id listed more than once has the name of its last entry |
| ChatList.UpdateChatIds | websocket/update_chat_ids.py:59-90 | nothing fetched writes nothing; otherwise the saved text is the merged dictionary's |
| ChatList.MergeLookup | websocket/update_chat_ids.py:69-72 | existing names are kept, and every fetched id is present |
| ChatList.LeqIsPrecedes | websocket/update_chat_ids.py:85 | the comparison is Python's: a prefix comes first, and otherwise the smaller character at the first difference |
| ChatList.LeqAtDifference | websocket/update_chat_ids.py:85 | strings that differ first at x < y are in that order and not in the other |
| ChatList.SortSorts | websocket/update_chat_ids.py:85 | the entries end in ascending order by prefix and first difference, with the same multiset |
| ChatList.SaveThenLoad | websocket/update_chat_ids.py:41-85 | loading what was saved gives the same map if and only if no name or id holds a comma and no name a colon |
| ChatList.CommaIsLost | websocket/update_chat_ids.py:41-85 | a concrete name that comes back cut, after which a second run with the same fetch writes another string |
| ChatList.SecondRunIsIdempotent | websocket/update_chat_ids.py:59-90 | whatever was saved before, a second run with the same fetch writes the same string |
| Deployment.ListIsRead | src/configuration.c:23-45 | the saved list is read back as exactly its chats, whole and in sorted order from slot zero, with holes behind, if and only if it has at most ten chats, each fits a slot, and the list has at most 129 characters |
| Deployment.FiveLongNamesAreCut | src/configuration.c:23-26 | a concrete list: five chats that fit their slots and are yet not read back |
| Deployment.StartIsHealthy | src/configuration.c:13-46 | a board built with such a list holds exactly its chats and covers a fresh server; it meets the hypothesis of the whole-run results if and only if every chat has a first name of its own |

## Left out

- Decimal.Atoi: a value outside 32 bits, which is undefined in C, is not modelled; emitted intervals are 1..120.
- Board.Config.SetChatId: the slots hold C string values; bytes behind a terminator and null pointer arguments are not modelled.
- Board.Config.ConfigInit: entries without a colon of twelve or more bytes are excluded, because their copy has no terminator.
- Board.Config.ProcessConfigCommand: the diagnostic output is left out, including printing a null pointer for a token without a colon.
- UpdateServer.UpdateResource.RenderPost: what fetching gives and the clock are inputs; user notifications, whose failures are caught, and a name that cannot be encoded as UTF-8 are left out.
- PythonText.ToIntOfDec: whitespace, letter case and digits are the ASCII ones; other Unicode spaces and digits are not modelled.
- Replication.Safety: answers that report a server error are not among the messages; ServerErrorBecomesChat shows what they would do.
- Client.Sender.PrepareAndSend: the header is a parameter and its length is all that matters; packet library, address and port conversion and retransmission are left out.
- Client.BroadcastArrives: forms that do not fit are not read back; what happens to them is ReceivedIsComplete, and a chat called "all" cannot be addressed by name.
- CoapThread.RunCycle: the wait for a response (src/main.c:57-66), of at most a second, and the LED change no modelled state and are left out.
- ChatList.UpdateChatIds: the configuration file's own trimming and interpolation, and the fetch itself, are left out.
- Answers carried in an acknowledgement, empty acknowledgements and block-wise responses: the handler reads no payload from the first (src/coap_post.c:111-117), which is loss here; separate responses are those of section 5.2.2 of RFC 7252.
- Console commands and unlocked access to the configuration from two threads: a delivered payload is one step.
- Shell commands, LED control, error text, timestamps and temperature formatting: they touch neither the chats nor the settings.
