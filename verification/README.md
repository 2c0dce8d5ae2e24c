# DataKit, verified

A Dafny model of the parts of DataKit whose correctness rests on order, interleaving or
exact text: how configuration files are filled in and loaded, how remote key-value
settings reach the running inputs, how the DCA server talks to its datakits, how the
injected launcher passes arguments, and some smaller tools beside them.

`dafny verify dfyconfig.toml` checks the whole project. Each module is one file in `src/`.

| module | part of the system |
|---|---|
| Bytes, TextPass | byte strings; loops of first-occurrence replacements |
| EnvFeed, EncDecode, TomlString | environment references and ENC brackets in configuration files |
| Base64, AesCbc | encrypted values |
| InputConf | loading every input configuration once |
| KvPull, InputKind, KvReload, KvRun | remote settings, the inputs of a kind, their reload, and the loop of pulls and reloads |
| RequestReply, HandOver | request identifiers and extra connections of the DCA server |
| DatakitTable, StatusGuard | the table of datakits and the guard on operations |
| GlobalTags | versioned global tags and the copies of the feeders |
| Heartbeat | retry interval of the DCA client |
| ArgFile | the argument file between rewriter and launcher |
| SortColumns, ImportTime, PointCount, Distinctness | query output, imported points, line-protocol statistics |

Concurrent parts are state machines: a `Step` datatype, `Enabled`, `Apply` and `Exec` over
a list of steps, an invariant kept by each step and theorems about every run. Objects
that the program updates in place are classes. Library code (hashing, JSON, templates,
the AES block) is a parameter, with the laws the proofs need stated as a predicate.

## Where the code does less than expected

Where a lemma is named it gives the case or the exact condition; the table below has the
theorems beside it that say when the code does meet the property.

- A reference that is a prefix of an earlier unset one is replaced in the wrong place (`EnvFeed.PrefixOfUnsetGoesWrong`).
- Request identifiers repeat after 2^63-2 requests, and a reply can then reach another request (`RequestReply.OneMoreRequestMixesReplies`).
- A connection that arrives before its channel is stored, or between that and the select, is lost (`HandOver.EarlyConnectionIsLost`).
- While one feeder refreshes the tags, others attach the old ones without noticing (`GlobalTags.StaleWhileRefreshing`).
- Two restarts can both be accepted, because lookup and update are separate statements (`StatusGuard.SplitRestartsBothAccepted`).
- A datakit without a row makes the guard dereference nil (`StatusGuard.AcceptedExactlyWhenRunning`, answer `NilRow`).
- A return to the loaded text is not noticed by a reload (`KvRun.BackAgainIsMissed`), since the stored text is never renewed.
- A reload leaves inputs running that nothing can stop: a second instance of a singleton (`InputKind.SecondSingletonStrays`), an equal input of another configuration (`InputKind.StopExactly`), an input of a kind without Terminate such as promv2 (`InputKind.EndlessIsStray`).
- A failed write can leave the settings file in disagreement with the state (`KvPull.DamagedFile`).
- Decryption looks at the last padding byte only, and panics on a bare vector or an incomplete block (`AesCbc.OpenAcceptsExactly`).
- The comments ask for a key of length 16; the code takes 16, 24 and 32.
- The comment on status transitions names the states that may become running; the code lets any status text do so, and a client can push a text that is none of the named states.
- A count of -1 gives an array without a terminator (`ArgFile.AlwaysTerminated`).
- A row shorter than its columns panics after the columns were sorted (`SortColumns.Row.SortColumns`).
- The heartbeat interval stays stretched after a reconnection (`Heartbeat.RecoveryKeepsFactor`).

## Model

| member | source | states |
|---|---|---|
| EnvFeed.RefsAreTheMatches | internal/config/load.go:27-28 | the references found are exactly the words in braces behind a dollar and the longest words right behind a dollar, each with that word as its name |
| EnvFeed.FeedEnvs | internal/config/load.go:145-178 | the loop of first-occurrence replacements equals its specification on every file and environment; on an unambiguous file the result is the file read from left to right with every reference to a set variable taken as its escaped value and all else as it stands |
| EnvFeed.SubstitutedIsFed | internal/config/load.go:145-178 | the simultaneous substitution is that left-to-right reading |
| EnvFeed.MarkIsTrimmed | internal/config/load.go:141-143 | exactly a leading byte-order mark is taken off |
| EnvFeed.UnambiguousFeed | internal/config/load.go:145-178 | with any values at all, an unambiguous file is fed to the simultaneous substitution |
| EnvFeed.FeedIsSubstitutionExactly | internal/config/load.go:145-178 | when every value in use is not empty and does not start with a dollar, the result is the simultaneous substitution if and only if the file is unambiguous |
| EnvFeed.FeedLandsExactly | internal/config/load.go:145-178 | for all values: every set reference is replaced in its own place if and only if the file is unambiguous |
| EnvFeed.EmptyValueHidesMiss | internal/config/load.go:166-174 | the condition on values is needed where only the result is looked at: in `$$C$A` with C set to A and A empty, a misplaced replacement gives the right text |
| EnvFeed.PlainFeed | internal/config/load.go:145-178 | values without a dollar, every dollar starting a match, and no unset reference related by prefix to a set one are enough for simultaneous substitution |
| EnvFeed.QuotedReferenceReadsAsValue | internal/config/load.go:145-178 | a set reference between double quotes becomes, between the substituted text before it and the substituted text behind it, a TOML string that reads back as the value, for values without control characters; in an unambiguous file this is what the loop writes |
| EnvFeed.PrefixOfUnsetGoesWrong | internal/config/load.go:166-174 | with A set and AB unset, `$AB $A` is fed to the wrong place: the unset reference loses its prefix |
| TextPass.RunIsSubstExactly | internal/config/load.go:150-175 | for any matcher and any replacements by values that are not empty and do not start with the mark, replacing first occurrences in turn is simultaneous substitution if and only if each text is found at its own place |
| TextPass.LandsExactly | internal/config/load.go:150-175 | for all replacements: the offsets at which the loop replaces are those of the references in the substituted text if and only if no text can be found earlier |
| EncDecode.DecodeEncs | internal/config/load.go:180-225 | the ENC loop equals its specification on every file and every resolution; on an unambiguous file the result is the file read from left to right, brackets that resolve taken as their value, up to the first address that does not parse |
| EncDecode.MatchesAreBrackets | internal/config/load.go:29-29 | a match is exactly ENC, brackets, and between them text without a closing bracket or a line end |
| TextPass.FoundAreLeftmost | internal/config/load.go:183-183 | a match that is not found overlaps one that starts before it and is found |
| EncDecode.DecodeIsSubstitutionExactly | internal/config/load.go:180-225 | for resolved texts that do not start with the letter E, the ENC loop is simultaneous substitution if and only if each bracket is found at its own place |
| EncDecode.DecodeLandsExactly | internal/config/load.go:180-225 | for all resolved texts: every bracket is replaced in its own place if and only if none can be found earlier |
| TomlString.EscapeRoundTrip | internal/config/load.go:30-33 | an escaped value between quotes reads back as the value exactly when it holds no control character, and is rejected otherwise |
| TomlString.QuotesAreEscaped | internal/config/load.go:30-33 | every quote of an escaped value follows an odd run of backslashes and the value ends in an even one, so no value closes its string early |
| RequestReply.Client.GetMessageNumber | dca/server/websocket.go:133-144 | the identifier lies in 1 .. 2^63-2, the counter never overflows, and the fresh channel is stored under it |
| RequestReply.IdsOfEveryRun | dca/server/websocket.go:133-144 | in every run the k-th request carries identifier k mod (2^63-2) + 1, never zero and never the largest integer |
| RequestReply.RepliesReachTheirRequest | dca/server/websocket.go:71-190 | in every run with at most 2^63-2 requests an accepted reply answers the request that received it, and slots are held by exactly the requests that have not returned |
| RequestReply.RequestGoesOut | dca/server/websocket.go:153-172 | after any run a request can begin and be sent; it then waits under its number with its action, and its message is on its way |
| RequestReply.HandledRequestIsAnswered | dca/websocket/client.go:632-659 | in every run with at most 2^63-2 requests the message of a waiting request can be handled and the reply read and delivered, and the request succeeds with the content of the reply if and only if that is a response under its action |
| RequestReply.FailedRequestIsAnswered | dca/websocket/client.go:445-468 | a message that cannot be handled is answered by an error response under its own action, which the request accepts |
| RequestReply.OutcomeStays | dca/server/websocket.go:153-190 | what a request ended with never changes any more |
| RequestReply.OneMoreRequestMixesReplies | dca/server/websocket.go:133-190 | the bound is exact: with one more request a late reply to the first is accepted by the last |
| RequestReply.InvStep | dca/websocket/client.go:445-468 | every step of server, network and datakit side keeps the correlation between identifiers, channels, messages and replies |
| HandOver.ClientManager.InitWebsocketConnChan | dca/server/websocket.go:257-262 | a fresh channel is stored under the identifier, replacing what was there |
| HandOver.ClientManager.AddWebsocketConnChan | dca/server/websocket.go:241-255 | a connection is handed over exactly when a channel is stored and its reader is ready, and the send cannot hit a closed channel |
| HandOver.ClientManager.DeleteWebsocketConnChan | dca/server/websocket.go:264-272 | the stored channel is closed and removed, and no channel is closed twice |
| HandOver.DeliveredAtMostOnce | dca/server/controller.go:228-264 | in every run, repeated identifiers included and with sending, storing the channel and entering the select as separate steps: no send on a closed channel, no double close, each connection reaches at most one waiter and that waiter asked under its identifier |
| HandOver.HandedOverExactlyWhileWaiting | dca/server/controller.go:246-262 | with distinct identifiers no waiter receives nil; an arriving connection can be handed over if and only if its waiter is in its select, and dropped if and only if none is |
| HandOver.HandedOver | dca/server/controller.go:246-262 | in every run a connection that arrives while a waiter can take it is what that waiter returns, whatever happens before and afterwards |
| HandOver.ServedInTime | dca/server/controller.go:228-264 | after any run a request under a new identifier that is served without delay returns its connection, and its channel is closed and removed |
| HandOver.ResultExactlyWhenDone | dca/server/controller.go:246-262 | in every run a waiter has a connection, nil or a timeout if and only if it is past its select or timed out before it |
| HandOver.EarlyConnectionIsLost | dca/server/controller.go:246-262 | in every run a connection that arrives after its waiter asked and before the waiter stored its channel, or after that and before its select, is dropped and the waiter is left as it was |
| HandOver.WaitsInVain | dca/server/controller.go:246-262 | both windows are reached, and the waiter then waits for a connection that has come and gone |
| HandOver.RepeatedIdReceivesNil | dca/server/websocket.go:257-272 | with a repeated identifier a waiter can receive nil from the channel another one closed |
| HandOver.InvStep | dca/server/websocket.go:241-272 | every step keeps the table of channels consistent with the waiters |
| GlobalTags.Globals.SetGlobalHostTags | internal/datakit/globaltags.go:67-72 | one host tag is set, election tags stay, the version moves by one |
| GlobalTags.Globals.SetGlobalHostTagsByMap | internal/datakit/globaltags.go:74-81 | the loop merges the whole map and moves the version once |
| GlobalTags.Globals.SetGlobalElectionTags | internal/datakit/globaltags.go:83-88 | one election tag is set, host tags stay, the version moves by one |
| GlobalTags.Globals.SetGlobalElectionTagsByMap | internal/datakit/globaltags.go:90-97 | the loop merges the whole map and moves the version once |
| GlobalTags.Globals.ClearGlobalHostTags | internal/datakit/globaltags.go:117-122 | host tags become empty, election tags stay, the version moves by one |
| GlobalTags.Globals.ClearGlobalElectionTags | internal/datakit/globaltags.go:124-129 | election tags become empty, host tags stay, the version moves by one |
| GlobalTags.Globals.ClearGlobalTags | internal/datakit/globaltags.go:111-115 | both maps become empty and the version moves by three |
| GlobalTags.CacheIsCurrent | internal/io/feed.go:182-237 | in every interleaving of writers and any number of feeders, below 2^64 changes: when nobody is writing and no update is reported, the cached tags are the global tags or a feeder that loaded the current version has yet to finish its copies |
| GlobalTags.StaleWhileRefreshing | internal/io/feed.go:234-237 | the second case is reached: while one feeder is between storing the version and copying, another one sees no update and has stale tags |
| GlobalTags.InvStep | internal/io/feed.go:182-200 | every single step of a writer or a feeder keeps the invariant behind the previous row |
| GlobalTags.TagsAreWritten | internal/datakit/globaltags.go:67-129 | in every run the tags are those last written and the version counts the changes |
| GlobalTags.RefreshBringsCurrent | internal/io/feed.go:182-237 | a feeder that refreshes undisturbed brings cache and version up to date, whatever they were |
| GlobalTags.ChangeIsReported | internal/datakit/globaltags.go:44-46 | a change that was not taken over is reported, until 2^64 changes have passed |
| GlobalTags.CopyFirstLosesUpdate | internal/io/feed.go:234-237 | the order matters: copying before remembering the version lets a change in between go unnoticed |
| DatakitTable.DB.constructor | dca/server/db.go:54-83 | what survives a start is exactly the recent rows not in a container, all offline, still one for each connection |
| DatakitTable.DB.ForceUpdate | dca/server/db.go:94-104 | it cannot fail on the index, leaves exactly one row for the connection and touches no other connection |
| DatakitTable.FindIsUnique | dca/server/db.go:246-260 | the duplicate error is impossible if and only if no connection has two rows |
| DatakitTable.FindExactly | dca/server/db.go:246-260 | nothing is found if and only if the connection has no row, the error is given if and only if it has two, and a row that is found is its own |
| DatakitTable.DB.UpdateStatus | dca/server/db.go:145-173 | for every pair of statuses: admitted if and only if there is one row and it runs already, has that status, or is to run or go offline; the one row then has the status, and all else is as before |
| DatakitTable.DatakitRows | dca/server/db.go:106-112 | a pushed datakit replaces all columns but the runtime identifier of its row, and no other row |
| DatakitTable.HeartbeatRows | dca/server/db.go:175-179 | a heartbeat renews the time of its row and nothing else |
| DatakitTable.DeletedRows | dca/server/db.go:223-244 | a hard delete leaves no row of the connection, a soft one leaves it offline, and the others stay |
| DatakitTable.RegistrationExactly | dca/server/websocket.go:278-298 | an undisturbed registration is refused without effect if the connection has a row that is not offline, and otherwise leaves one running row |
| DatakitTable.UnregistrationExactly | dca/server/websocket.go:299-307 | a connection that leaves is offline, or gone if it ran in a container |
| DatakitTable.NoDuplicatesInAnyRun | dca/server/websocket.go:274-311 | from a table with one row per connection, no run of the manager, the push actions and restarts of the server, statement by statement, ever makes a lookup fail with the duplicate error |
| DatakitTable.TwoManagersDuplicate | dca/server/db.go:27-50 | the index is on connection and runtime identifier together, so with two managers at once, both deleting before either inserts, two rows would be left: one manager is what excludes it |
| StatusGuard.AcceptedExactlyWhenRunning | dca/server/action.go:66-92 | on every table, the exact condition of each answer: accepted if and only if there is one row and it runs, nil dereference if and only if there is none, and both refusals; an accepted operation sets the status of that row and nothing else, any other changes nothing |
| StatusGuard.AcceptedWhenSplit | dca/server/action.go:66-92 | with the two lookups apart in time, the exact condition on the two rows they see |
| StatusGuard.SplitRestartsBothAccepted | dca/server/action.go:70-92 | two restarts whose first lookups both come before the first update are both accepted |
| StatusGuard.WhatSetsRunning | dca/server/action.go:23-56 | of all statements only the write of a pushed status, a pushed datakit and the insert of a registration can make a row running |
| StatusGuard.RunningAgainInBetween | dca/server/action.go:66-92 | in every trace of single statements and operations, between two accepted operations of one datakit such a statement made it running again |
| KvPull.KV.ParseKV | internal/config/kv.go:96-113 | succeeds exactly on nothing and on a JSON object; the dictionary then has exactly the members of the object, each as it prints, and otherwise is empty with the old checksum |
| KvPull.KV.LoadKVFile | internal/config/kv.go:80-90 | succeeds exactly when the file is there, decodes and parses, and then value, version, dictionary and checksum are those of the file; a file that decodes and does not parse leaves value and version with an empty dictionary and the old checksum |
| KvPull.KV.DoPullKV | internal/config/kv.go:165-234 | for every response and every outcome of the write: which are taken over, what is then in memory and in the file, and what stays; a reload is reported exactly for a response taken over whose checksum is new, and the dictionary then shows its members |
| KvPull.PullStep | internal/config/kv.go:201-234 | a reload is reported exactly when the value changes; a version falls only to -1; a refused response changes nothing but possibly the file; file and state stay in agreement unless the write was damaged |
| KvPull.ParsedRun | internal/config/kv.go:165-234 | over every run of pulls the dictionary and checksum are those of the value, and each reload flag is right |
| KvPull.VersionRun | internal/config/kv.go:208-225 | without responses of version -1 the version never falls over any run |
| KvPull.StoredRun | internal/config/kv.go:218-233 | after an accepted pull and no damaged write, loading the file gives back the state, however many pulls follow |
| KvPull.DamagedFile | internal/config/kv.go:218-223 | a write that fails halfway leaves file and state in agreement if and only if what it left decodes to the old state |
| KvReload.Agent.GetInputsByConfKey | internal/plugins/inputs/inputs.go:400-413 | the inputs returned are exactly the registered ones of the configuration |
| KvReload.Agent.StopInputs | internal/config/kv.go:262-272 | for every registry: each input of the configuration is terminated if its kind can be, and removed with everything deeply equal to it |
| KvReload.Agent.StartInputs | internal/config/kv.go:274-288 | for every registry and all kinds: every instance runs, and is registered unless its kind is a singleton that has one |
| KvReload.Agent.ReloadInputsWithKV | internal/config/kv.go:236-289 | for every registry, configuration and dictionary: the configurations that render to a text other than the loaded one are reloaded one by one in some order, and the pass ends early exactly when one of them does not parse, at the first such |
| KvReload.PassReloads | internal/config/kv.go:236-289 | after a pass that meets the condition, each configuration reached has exactly the instances that its new text lists, kind by kind, the others have theirs, and nothing runs unregistered; a configuration that does not render is never reached; the one that ended the pass has none |
| KvReload.LatestIsLoaded | internal/config/kv.go:244-258 | the text that counts is the loaded one if no dictionary gave another |
| KvReload.LatestIsLastRenewed | internal/config/kv.go:244-258 | and otherwise the one under the last dictionary that did |
| InputKind.KeptExactly | internal/plugins/inputs/inputs.go:287-307 | removal leaves a configuration alone if and only if nothing of it is deeply equal to what is removed |
| InputKind.StopExactly | internal/config/kv.go:262-272 | stopping leaves every running input registered if and only if the stopped ones can be terminated and no other configuration has an equal one |
| InputKind.StartExactly | internal/plugins/inputs/inputs.go:269-285 | starting leaves every running input registered if and only if a singleton kind gets at most one instance and has none |
| InputKind.PassIsRightExactly | internal/config/kv.go:261-289 | the pass is right in every order of walking if and only if: a singleton asked for is asked for once and no other configuration has or wants one; no plain configuration is shared with a changed one; and kinds without Terminate have nothing to stop |
| InputKind.RunIsRightExactly | internal/config/kv.go:236-289 | the same over any run of passes, with what the configurations asked for before as the starting point of each |
| InputKind.StrayRunsOn | internal/config/kv.go:261-272 | an input that runs unregistered is never stopped by any run of reloads |
| InputKind.SecondSingletonStrays | internal/config/kv.go:282-286 | two instances of a singleton kind in one configuration: one of them runs unregistered for good |
| InputKind.OrderDecides | internal/config/kv.go:261-289 | two configurations that ask for one singleton kind both run theirs, and the first one walked is the one registered |
| InputKind.EndlessIsStray | internal/config/kv.go:264-271 | an input without Terminate is removed and runs on |
| KvRun.PullAndReload | internal/config/kv.go:144-159 | over every sequence of pulls: the state is that of the pulls, each reload gets the dictionary just installed, and, if all new texts parse and the condition holds, every template configuration runs the inputs of its latest text that differed from the loaded one, the others run on, and nothing runs unregistered |
| KvRun.CurrentIsInstalled | internal/config/kv.go:225-233 | the dictionary in memory is the one of the last reload |
| KvRun.ReloadsExactlyOnChange | internal/config/kv.go:144-159 | a pull leads to a reload if and only if it changes the value, and the reload gets the printed members of the new value |
| KvRun.RunningIsLatest | internal/config/kv.go:236-289 | the theorem behind the loop, for one kind and the walks that were made |
| KvRun.MatchesCurrentExactly | internal/config/kv.go:244-258 | after any sequence of pulls the inputs are those of the current text if and only if it differs from the loaded text or the inputs had not moved away from it |
| KvRun.BackAgainIsMissed | internal/config/kv.go:253-255 | values A, B, A: the dictionary is back at A and the registered inputs are still those of B |
| InputConf.Loader.Merge | internal/config/load_inputconf.go:232-251 | the inner loop gives, kind by kind, the merge rule for singletons and others |
| InputConf.Loader.LoadInputConf | internal/config/load_inputconf.go:214-255 | each kind has all instances of the files that can be read, but the main configuration, in order, a file with known content left out, and of a singleton kind the first one only; the recorded checksums are exactly those of these files |
| InputConf.MergedIsKept | internal/config/load_inputconf.go:234-250 | merging file by file equals cutting the concatenation of all files |
| InputConf.SingletonIsFirst | internal/config/load_inputconf.go:234-247 | a singleton kind keeps the first instance of the first file that has one |
| Base64.DecodeEncode | internal/config/enc.go:45-50 | standard base64 with padding reads back every byte string |
| Base64.DecodesExactly | internal/config/enc.go:50-53 | decoded are exactly groups of four symbols with one or two padding marks at the very end |
| Base64.LineEndsAreIgnored | internal/config/enc.go:50-53 | line ends are ignored wherever they stand |
| Base64.SameBits | internal/config/enc.go:45-45 | four symbols carry the bits of three bytes in order |
| Base64.Vectors | internal/config/enc.go:45-45 | the alphabet and the padding, on vectors of RFC 4648 |
| AesCbc.CbcRoundTrip | internal/config/enc.go:42-68 | chained decryption undoes chained encryption for every block cipher, vector and length |
| AesCbc.CbcBlocks | internal/config/enc.go:42-43 | every block is the encipherment of its text mixed with the block before it, the first one with the vector |
| AesCbc.XorBitsAt | internal/config/enc.go:42-43 | mixing is exclusive or, bit by bit |
| AesCbc.Padding | internal/config/enc.go:31-34 | one to sixteen bytes that fill the last block, each of them their number |
| AesCbc.SealedLayout | internal/config/enc.go:36-43 | the vector comes first, and behind it the enciphered text with its padding |
| AesCbc.DecryptEncrypt | internal/config/enc.go:25-78 | decrypting an encrypted text gives the text, for every valid key, text and vector |
| AesCbc.OpenAcceptsExactly | internal/config/enc.go:60-75 | exactly which ciphertexts are accepted and which panic: only the last padding byte is looked at, a bare vector or an incomplete block panics |
| AesCbc.DecryptExactly | internal/config/enc.go:49-78 | the answer to every key and every text: error, panic or the text without its padding |
| AesCbc.AESEncrypt | internal/config/enc.go:25-46 | succeeds exactly for keys of 16, 24 or 32 bytes and a working random reader, and then decodes to vector and enciphered text |
| AesCbc.AESDecrypt | internal/config/enc.go:49-78 | the steps of the code give the answer that `AesCbc.DecryptExactly` describes |
| AesCbc.OpenByCuts | internal/config/enc.go:60-77 | the length test, the cuts and the padding test in the order of the code give the specified outcome, panics included |
| ArgFile.Marshal | internal/apminject/rewriter/rewriter.go:219-238 | the string built in three parts is the concatenation of the three groups |
| ArgFile.File.ReadRecord | internal/apminject/apm_launcher.c:66-69 | the record up to and including the separator, or the rest of the file |
| ArgFile.File.Read | internal/apminject/apm_launcher.c:71-138 | the loop over records equals its specification, with every slot written inside the array |
| ArgFile.AlwaysTerminated | internal/apminject/apm_launcher.c:101-126 | a returned array ends in an empty slot, whatever the file; the one exception is the count -1, which gives an array without slots |
| ArgFile.GroupReadsBackExactly | internal/apminject/apm_launcher.c:71-126 | a written group reads back if and only if no member holds the record separator or a NUL or is the lone group separator |
| ArgFile.CountDecides | internal/apminject/apm_launcher.c:101-126 | for any count and any clean strings, ended by a separator or the end of the file: the strings fill the first slots of an array for the count, or are refused if there are more than the count says |
| ArgFile.LaunchReadsBack | internal/apminject/apm_launcher.c:325-341 | path, arguments and environment written by the rewriter are what the launcher starts |
| ArgFile.LaunchGivesUpExactly | internal/apminject/apm_launcher.c:325-341 | the launcher falls back if and only if a group cannot be read or the first one has no string to start with |
| ArgFile.AtoiOfDigits | internal/apminject/apm_launcher.c:104-104 | behind white space the digits count, up to the first byte that is none |
| ArgFile.AtoiOfSigned | internal/apminject/apm_launcher.c:104-104 | and so does a sign before them |
| ArgFile.AtoiOfItoa | internal/apminject/rewriter/rewriter.go:225-231 | the C reader gets back each count the Go writer prints, up to the largest int |
| SortColumns.Row.SortColumns | internal/cmds/dql.go:494-519 | with duplicate columns nothing changes; otherwise the columns are sorted and each row follows, unless a row is too short, which panics after the columns were replaced |
| SortColumns.SameCells | internal/cmds/dql.go:507-516 | every column keeps its own cell |
| SortColumns.SortTwice | internal/cmds/dql.go:494-519 | sorting a second time changes nothing |
| SortColumns.SortedIsUnique | internal/cmds/dql.go:506-506 | a list of names has only one sorted arrangement, so any correct sort gives this result |
| SortColumns.LeqExactly | internal/cmds/dql.go:506-506 | the order is that of the first byte in which two names differ, a prefix first |
| ImportTime.SortByTime | vendor/github.com/GuanceCloud/cliutils/point/sort.go:13-25 | a permutation in ascending order, although the comparison uses a saturating difference |
| ImportTime.Compare | vendor/github.com/GuanceCloud/cliutils/point/sort.go:15-23 | the comparison through a saturating difference orders all times |
| ImportTime.AdjustPointTime | internal/cmds/import.go:111-139 | for every slice: sorted by old time, each point moved by the shift as often as it is listed; if no point is listed twice the order stays and the latest lands on the given time if and only if the difference fits a duration |
| Heartbeat.Client.Heartbeat | dca/websocket/client.go:565-593 | the loop equals its specification for every sequence of outcomes |
| Heartbeat.FactorOfEveryRun | dca/websocket/client.go:579-581 | in every run the factor is the integer logarithm of the count plus two, between 1 and 9 |
| Heartbeat.FactorFallsOnlyAtCut | dca/websocket/client.go:579-585 | between two failures in a row the factor falls only where the count is cut back from 1001 to 10 |
| Heartbeat.Streak | dca/websocket/client.go:569-585 | closed form of the count after any number of failures in a row |
| Heartbeat.RecoveryKeepsFactor | dca/websocket/client.go:573-581 | after a reconnection the count is zero but the ticker keeps the stretched interval |
| Heartbeat.OnlyReconnectionResets | dca/websocket/client.go:569-578 | an answered heartbeat keeps the count, a new connection clears it |
| PointCount.CountPoints | internal/cmds/parse_lp.go:35-56 | each measurement has the number of its points and of the series it was the first to show; over all measurements the points add up to the input and the series to the distinct identifiers |

## Left out

- EnvFeed.FeedIsSubstitutionExactly: the only-if half needs values that show a misplacement; `EnvFeed.EmptyValueHidesMiss` gives a case where none shows. The if half, `EnvFeed.UnambiguousFeed`, and the condition on where replacements land, `EnvFeed.FeedLandsExactly`, hold for all values.
- EncDecode.DecodeIsSubstitutionExactly: asks that a resolved text does not start with the first letter of a bracket, for the same reason; `EncDecode.DecodeLandsExactly` does not.
- EncDecode.DecodeEncs: parsing the address, reading the file and decrypting are one function from bracket content to outcome.
- EnvFeed.QuotedReferenceReadsAsValue: `TomlString.ReadBasic` reads the short escapes only, not the two Unicode forms, and does not check UTF-8.
- RequestReply.RepliesReachTheirRequest: closing a connection ends the reading and writing loops and is no step of its own, since a request does not look at it; such runs are those in which nothing is sent or read any more. Message bodies are reduced to action, identifier and kind.
- HandOver.HandedOverExactlyWhileWaiting: asks for distinct identifiers, which the generator of identifiers is there to provide; `HandOver.RepeatedIdReceivesNil` shows the need.
- GlobalTags.CopyFirstLosesUpdate: the reversed order is not in the code and appears as a sequence of states only.
- DatakitTable.DB.Insert: SQL text, column types and database errors other than the unique index are not modelled; this holds for the whole class.
- DatakitTable.NoDuplicatesInAnyRun: the write of a pushed status is admitted even where the lookup before it would refuse it, which only adds runs.
- StatusGuard.RunningAgainInBetween: an operation is one step, as its two lookups and the write are when nothing comes between; `StatusGuard.AcceptedWhenSplit` and `StatusGuard.SplitRestartsBothAccepted` are about the lookups apart.
- KvPull.ParsedRun: takes the checksum to have no collisions, as do the other theorems about runs of pulls.
- KvPull.KV.LoadKVFile: fields that a failing JSON decoder may already have filled are not modelled.
- KvReload.Agent.ReloadInputsWithKV: configurations are in array form; the single-table form, which leaves the name of an instance unset, is not modelled. Restarting the HTTP server has no counterpart.
- InputKind.StopExactly: deep equality is taken to be fixed by kind and configuration, where the code compares inputs as they are while running.
- KvRun.PullAndReload: the theorem about the latest text is for runs in which all new texts parse; a pass that ends early is described by `KvReload.PassReloads`.
- InputConf.Loader.LoadInputConf: takes the checksum to have no collisions; searching directories and the recorded paths are left out; parsing is a function.
- AesCbc.AESDecrypt: buffers are values; that the library deciphers over its own input is not captured.
- AesCbc.AESEncrypt: the chained encryption is called as a function; the random vector is a parameter.
- ArgFile.LaunchReadsBack: opening and removing the file, forking the rewriter and its timer are left out.
- ArgFile.File.Read: read errors other than the end of the file are not modelled; `limit` stands for the allocation that fails.
- ImportTime.SortByTime: an insertion sort stands for the library's sort and returns a new list, where the code reorders the slice it is given.
- ImportTime.AdjustPointTime: the nanosecond range of a point's clock is not modelled.
- Heartbeat.Client.Heartbeat: the logarithm is exact, where the code rounds a floating-point one; sending the heartbeat is an outcome.
- PointCount.CountPoints: hashing a point is a field of the point.
- Collectors, pipelines, data upload, election, the HTTP interface, installation and packaging are not modelled.
