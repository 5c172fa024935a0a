# irc-py server core in Dafny

A model of the protocol core of irc-py, a minimal IRC server written in Python 2. The core has two parts.

- `irc/server.py`: the `Server` object.
  - It parses each client line.
  - It checks nicknames and channel names.
  - It dispatches commands: PASS, NICK, USER, JOIN, PART and PRIVMSG, plus five that do nothing.
  - It keeps the nickname table and the channel table.
  - It sends numeric replies and relayed lines to the connections.
- `irc/channel.py`: the `Channel` record, whose member list the server edits in place.

The model follows the source's own shape.

- Python 2 strings are byte strings. A Dafny `char` stands for one byte, so every length in the model, such as the 49-character bound of `valid_chan`, counts bytes. The model does not bound characters to 0xFF: a character above that fails every character class the validators use, as no byte can.

- The parser, the validators and the reply-line builders are pure functions: modules `Parse`, `Validate` and `Reply`. Their string helpers are in `Text`, and the sort used for the names list is in `Sorting`.
- A connection is a class `Sessions.Session`. Its fields are `nick`, `registered`, `realname` (an `Option`), `channels` and `outbox`.
  - `outbox` holds, in order, every line the server has sent to that connection.
- A channel is a class `Channels.Channel`. Its fields are a constant `name`, a `users` list and a `topic`.
- The server is a class `IrcServer.Server`.
  - Its fields are the `users` map (nickname to session) and the `channels` map (name to channel).
  - `host`, `version` and `createdate` are constants.
  - A ghost set `sessions` holds the connections the transport has attached.
  - Every handler is a method with a `modifies` clause that names the fields it changes, and no other fields.

Every handler keeps the invariant `Server.Valid()`:

- each channel is filed under its own name;
- every key of the nickname table maps to a registered session that carries that nickname;
- channel membership is kept twice, in the channel's member list and in the session's channel list, and the two agree;
- neither list holds anything twice.

Each handler's postcondition is a two-state predicate (`NickDone`, `JoinDone`, `PartDone`, ...). It states the handler's whole effect:

- the new tables and membership lists;
- the exact lines added to each connection's outbox;
- that everything else is unchanged.

Every broadcast reaches each recipient exactly once.

Module `Scenarios` holds multi-command properties as client methods, among them:

- registration in either order, with or without PASS;
- the empty-real-name asymmetry;
- a JOIN then PART that restores both membership lists;
- two connections that both register under the same nickname.

Where RFC 2812 and the code disagree, the model follows the code:

- `valid_nick` checks only the first character. `re.match` is not anchored at the end, so a longer legal tail is never required (`Validate.ValidNick`, `Validate.OnlyFirstCharacterChecked`).
- `JOIN 0` sends a single `:<nick> PART 0` to each member of the notify set. It does not send one PART per channel name.
- The NICK-change notice is built by `respond`, so it carries the recipient's own nickname as its first argument: `:<old> NICK <recipient>`.
- NICK to one's own current nickname gets 433 once registered. The code does not exclude the session itself.
- A pending nickname is not reserved. Two connections can both register under the same nickname, and the table then keeps the later one.
- NICK after USER registers only when the real name is non-empty (truthiness). USER after NICK registers whenever the nickname is set.
- `parse_msg` splits off the trailing argument at the last colon after the prefix, not at the first ` :`.
- `valid_chan` also accepts a name that ends in one line feed. Python's `$` matches just before a newline that ends the string (`Validate.ValidChan`, `Validate.ChannelNewlineExamples`). The transport frames lines on CRLF, so a bare line feed can reach it inside an argument, for instance `JOIN :&a` followed by a line feed.

## Model

| member | source | states |
|---|---|---|
| Text.Words | irc/server.py:40 | `str.split()`: every piece is a non-empty word without whitespace; `WordsOfInterleave` and `Gaps` pin down which |
| Text.WordsAfterBlank | irc/server.py:40 | leading whitespace, of any kind and length, is dropped by `split()` |
| Text.WordsOfInterleave | irc/server.py:40 | words with any whitespace before and after them, and at least one whitespace character between each two, split back into exactly those words |
| Text.Gaps | irc/server.py:40 | every string is the words `split()` returns, in order, with whitespace around and between them; with `WordsOfInterleave`, those are the only words it could return |
| Text.InterleaveAvoids | irc/server.py:38 | a string made of whitespace and colon-free words has no colon, so `find(':')` is -1 |
| Text.JoinSpace | irc/server.py:246 | `' '.join`: the pieces with one space between each two; its properties are `WordsOfJoin`, `JoinAvoids`, `JoinAppend` and `JoinPrepend` |
| Text.WordsOfJoin | irc/server.py:40-43 | splitting words joined by single spaces gives the words back, with or without a trailing space |
| Text.Find | irc/server.py:38 | `str.find`: -1 exactly when the character is absent, else the index of its first occurrence |
| Text.RFind | irc/server.py:39 | the index `rsplit(c, 1)` splits at: -1 exactly when absent, else the last occurrence |
| Text.FindAt | irc/server.py:37 | `split(' ', 1)` stops at the first space: the text before it has none |
| Text.RFindAt | irc/server.py:39 | `rsplit(':', 1)` stops at the last colon: the text after it has none |
| Text.Lower | irc/server.py:44 | `lower()` keeps the length, turns each ASCII capital into its small letter and leaves every other character alone |
| Text.LowerFixedPoint | irc/server.py:44 | lower-casing leaves a string unchanged exactly when it has no capital letters |
| Text.LowerIdempotent | irc/server.py:56 | lower-casing the already lower-cased command a second time in `command` changes nothing |
| Text.Take | irc/server.py:109 | `s[:n]` is a prefix of `s` of length `min(n, len(s))` |
| Text.JoinAvoids | irc/server.py:246 | joining words by spaces introduces no character but the space |
| Text.JoinAppend | irc/server.py:246-247 | joining one more word appends a space and that word |
| Text.JoinPrepend | irc/server.py:246-247 | joining a word in front puts it before the join of the rest |
| Parse.SplitPrefix | irc/server.py:36-37 | a leading `:` makes the text up to the first space the prefix (so the prefix has no space and the line is `:prefix rest`), otherwise the prefix is empty and the rest is the line |
| Parse.Parts | irc/server.py:38-43 | the token list: with a colon, the words before the last colon and then the text after it verbatim; otherwise the words; see `PartsAtLastColon` and `PartsWithTrailing` |
| Parse.Parsable | irc/server.py:33-44 | the lines `parse_msg` returns on: non-empty, a space after a `:prefix`, and at least one token |
| Parse.ParseMsg | irc/server.py:33-44 | the prefix has no space and is what follows the leading colon; the command has no capital letter; without a colon all arguments are words; with one, the last argument is the text after the last colon, verbatim |
| Parse.ParsePrefixed | irc/server.py:33-44 | a line `:prefix rest` parses into that prefix, the lower-cased first token of `rest` and its other tokens |
| Parse.PartsAtLastColon | irc/server.py:38-41 | with a colon-free trailing text, the split happens at the colon before it |
| Parse.PartsWithTrailing | irc/server.py:38-41 | words joined by spaces and followed by ` :text` give back the words and then `text` unchanged |
| Parse.PartsWithoutTrailing | irc/server.py:42-43 | colon-free words joined by spaces give back the words |
| Parse.ParsePrefixedTrailing | irc/test/test_server.py:37-43 | `:prefix w1 ... wn :text` parses into the prefix, `lower(w1)` and `w2 ... wn` then `text`, case kept in the arguments |
| Parse.ParsePrefixedWords | irc/test/test_server.py:44-45 | `:prefix w1 ... wn` parses into the prefix, `lower(w1)` and `w2 ... wn` |
| Parse.ParseUnprefixedTrailing | irc/test/test_server.py:40-41 | `w1 ... wn :text` parses with an empty prefix |
| Parse.ParseUnprefixedWords | irc/server.py:33-44 | `w1 ... wn` without colon, the shape of the command lines clients send, parses with an empty prefix into `lower(w1)` and `w2 ... wn`, case kept |
| Parse.ParseSpacedWords | irc/server.py:33-44 | the same with any whitespace before, between and after the words |
| Parse.ParseExampleCommandLine | irc/test/test_server.py:93 | `nick shira` gives `("", "nick", ["shira"])` |
| Parse.ParseExampleOnlyTrailing | irc/test/test_server.py:42-43 | `:prefix command :trailing arg` gives `("prefix", "command", ["trailing arg"])` |
| Parse.ParseExampleNoArgs | irc/test/test_server.py:44-45 | `:prefix command` gives `("prefix", "command", [])` |
| Validate.IsNickFirst | irc/server.py:22 | the first character class of the nickname pattern: a letter or one of the specials |
| Validate.IsNickRest | irc/server.py:23 | the class of the later characters: the first class, digits and `-` |
| Validate.NickRestRun | irc/server.py:22-23 | the greedy `{0,k}` run of tail characters: all are tail characters and it stops at the first other one or at `k` |
| Validate.NickMatchLength | irc/server.py:22-23 | the length `re.match` takes: at most 9, first a head character, then tail characters, stopping at the first character that does not fit |
| Validate.ValidNick | irc/server.py:27-28 | `valid_nick` holds exactly when the string is non-empty and its first character is a letter or one of the specials |
| Validate.ValidNickIsPrefixMatch | irc/server.py:22-28 | `valid_nick` holds exactly when some non-empty prefix is a whole nickname-pattern match |
| Validate.RfcNicknameAccepted | irc/server.py:22-28 | every nickname of the RFC 2812 shape is accepted |
| Validate.OnlyFirstCharacterChecked | irc/server.py:22-28 | strings with an illegal tail or longer than 9 are accepted all the same |
| Validate.ValidNickAfterTake | irc/server.py:109-111 | cutting to 9 characters never changes the verdict |
| Validate.NicknameExamples | irc/test/test_server.py:49-68 | the nickname cases of the tests: digits and `-` are refused in first position only |
| Validate.IsChanChar | irc/server.py:24-25 | the channel character class as the seven ranges of the pattern |
| Validate.ChanClassesAgree | irc/server.py:24-25 | the seven byte ranges of the channel pattern are exactly the octets other than NUL, BELL, LF, CR, space, comma and colon |
| Validate.ChanRun | irc/server.py:24-25 | the greedy run of channel characters stops at the first other one or at the bound |
| Validate.ValidChan | irc/server.py:24-31 | `valid_chan` holds exactly when the string is `&` then 1 to 49 channel characters, and then nothing or a single final line feed |
| Validate.ChannelNewlineExamples | irc/server.py:24-31 | `&a` with one final line feed passes; two line feeds, a line feed inside the name or a name of a line feed alone do not |
| Validate.ChannelPrefixExamples | irc/test/test_server.py:72-80 | only `&` followed by something passes |
| Validate.ChannelLengthExamples | irc/test/test_server.py:82-83 | 48 characters after `&` pass, 50 do not |
| Validate.ChannelSeparatorExamples | irc/test/test_server.py:85-88 | space, comma, colon and BELL are refused |
| Sorting.LexLe | irc/server.py:86 | Python's `<=` on byte strings: the first differing character decides, and a proper prefix comes first |
| Sorting.Insert | irc/server.py:86 | one insertion step: `x` goes before the first element it does not exceed; see `InsertPermutation` and `InsertSorted` |
| Sorting.Sort | irc/server.py:86 | `names.sort()`, by insertion; `SortSortedPermutation` and `SortedPermutationUnique` state that it is Python's result |
| Sorting.LexLeReflexive | irc/server.py:86 | the string order of `sort` is reflexive |
| Sorting.LexLeTotal | irc/server.py:86 | and total |
| Sorting.LexLeTransitive | irc/server.py:86 | and transitive |
| Sorting.LexLeAntisymmetric | irc/server.py:86 | and antisymmetric |
| Sorting.InsertPermutation | irc/server.py:86 | inserting adds exactly the one element |
| Sorting.InsertSorted | irc/server.py:86 | inserting into an ascending list keeps it ascending |
| Sorting.SortSortedPermutation | irc/server.py:86 | `names.sort()` gives an ascending permutation of the nicknames |
| Sorting.SortedPermutationUnique | irc/server.py:86 | any ascending permutation is that same list, so the names line does not depend on how the sort is done |
| Reply.RelayLine | irc/server.py:251-254 | the line `respond_without_nick` sends: `:prefix command`, then a space and the arguments joined by spaces when there are any |
| Reply.ReplyLine | irc/server.py:243-246 | the line `respond` sends: `:prefix command nick`, then a space and the arguments joined by spaces when there are any |
| Reply.RelayLineJoined | irc/server.py:251-255 | a `respond_without_nick` line is `:prefix` then the command and the arguments joined by single spaces |
| Reply.ReplyIsRelay | irc/server.py:243-247 | a `respond` line is the relayed line whose first argument is the receiver's nickname |
| Reply.RelayLineParses | irc/server.py:251-255 | a relayed line whose last argument is `:text` parses back into the prefix, the lower-cased command, the middle arguments and `text` |
| Reply.RelayLineParsesWords | irc/server.py:251-255 | a relayed line of middle words only parses back into its pieces |
| Lists.RemoveFirst | irc/server.py:159 | `list.remove(x)` when `x` is present: one element fewer; when `x` is absent Python raises and the model returns the list unchanged, a case the server never reaches |
| Lists.RemoveFirstAt | irc/server.py:159 | the first occurrence of `x` is cut out and every other element keeps its place and order |
| Lists.RemoveFirstMultiset | irc/server.py:159 | `list.remove(x)` takes out exactly one occurrence of `x` when there is one |
| Lists.RemoveFirstDistinct | irc/server.py:201 | in a list without duplicates, `remove(x)` removes exactly `x` and keeps the list free of duplicates |
| Lists.RemoveFirstAppended | irc/server.py:172-173 | removing what was just appended gives the list back |
| Channels.Channel.constructor | irc/channel.py:2-5 | a new channel keeps the given name, has no members and an empty topic |
| Channels.Channel.GetTopic | irc/channel.py:10-11 | the current topic; `constructor` and `SetTopic` state what it returns |
| Channels.Channel.SetTopic | irc/channel.py:7-8 | `get_topic()` then returns the new topic; the member list is untouched |
| Sessions.Session.constructor | irc/user.py:12-15 | a new connection: nickname `*`, not registered, no real name, on no channel, nothing sent |
| Sessions.Session.Send | irc/user.py:26-27 | sending appends the line to what the connection was sent |
| IrcServer.Neighbours | irc/server.py:75-79 | `notify_set`: every member of every channel the session is on, as a set |
| IrcServer.Nicks | irc/server.py:83-85 | the nickname list has one entry per member, in member order |
| IrcServer.Server.constructor | irc/server.py:11-18 | empty tables, the fixed version and creation date, the invariant holds |
| IrcServer.Server.Admit | irc/user.py:33-34 | a new connection joins the attached sessions and the invariant still holds |
| IrcServer.Server.Respond | irc/server.py:243-249 | the receiver's outbox gains exactly the reply line naming it |
| IrcServer.Server.RespondWithoutNick | irc/server.py:251-257 | the receiver's outbox gains exactly the relayed line |
| IrcServer.Server.Register | irc/server.py:60-62 | the nickname now maps to the session, which is registered and greeted; the invariant holds |
| IrcServer.Server.Welcome | irc/server.py:64-73 | the four greeting lines 001 to 004 with their texts |
| IrcServer.Server.Greet | irc/server.py:64-73 | exactly the 001, 002, 003 and 004 lines, in that order |
| IrcServer.Server.NotifySet | irc/server.py:75-79 | the loop's set is every member of every channel of the session, each once |
| IrcServer.Server.NeighboursAttached | irc/server.py:75-79 | under the invariant the notify set holds attached sessions only, and the session itself exactly when it is on some channel |
| IrcServer.Server.MemberNicks | irc/server.py:83-85 | the loop's list is the members' nicknames in member order |
| IrcServer.Server.NamesLines | irc/server.py:88-91 | the 353 line with the sorted nicknames joined by spaces, then the 366 line |
| IrcServer.Server.SendNames | irc/server.py:81-91 | the joiner gets 353 with the sorted nicknames, then 366 |
| IrcServer.Server.Relay | irc/server.py:175-176 | each member not excluded gets the relayed line once; nobody else gets anything |
| IrcServer.Server.RelayEach | irc/server.py:155-156 | each session of the set gets the relayed line once; nobody else gets anything |
| IrcServer.Server.RespondEach | irc/server.py:129-130 | each session of the set gets once a line naming that session; nobody else gets anything |
| IrcServer.Server.CmdPass | irc/server.py:93-102 | 462 once registered, else 461 without arguments, else nothing; no state changes |
| IrcServer.Server.SetPendingNick | irc/server.py:117-121 | before registration the nickname is set, and registration follows exactly when the real name is non-empty |
| IrcServer.Server.Rekey | irc/server.py:123-127 | the old key is deleted and the new one maps to the session, which carries the new nickname |
| IrcServer.Server.Rename | irc/server.py:122-130 | a registered change moves the table entry and tells each neighbour once, in a line naming that neighbour |
| IrcServer.Server.CmdNick | irc/server.py:104-130 | 431 without argument; the argument cut to 9; 432 if invalid; 433 if taken; otherwise the pending nickname or the rename; the nickname is unchanged on every error |
| IrcServer.Server.CmdUser | irc/server.py:132-142 | 462 once registered; 461 with fewer than 4 arguments; otherwise the real name is the fourth argument and registration follows when a nickname is set |
| IrcServer.Server.LeaveAll | irc/server.py:158-161 | the session's channel list becomes empty and each of its channels loses exactly that session; the channels stay |
| IrcServer.Server.AnnouncePartAll | irc/server.py:155-156 | each member of the notify set, the session included, gets `PART 0` once |
| IrcServer.Server.PartAll | irc/server.py:154-161 | `JOIN 0`: the PART notices, then the session leaves every channel |
| IrcServer.Server.ChannelNamed | irc/server.py:167-170 | the channel under the name, created empty and filed under it when absent; other entries kept |
| IrcServer.Server.AddMember | irc/server.py:172-173 | both membership lists gain their new entry at the end and the invariant holds |
| IrcServer.Server.Link | irc/server.py:167-173 | the channel, created when new, and the session now list each other |
| IrcServer.Server.AnnounceJoin | irc/server.py:175-178 | every member, the joiner included, gets the JOIN once, then the joiner gets the names list |
| IrcServer.Server.Joined | irc/server.py:167-178 | a join to a channel the session is not on, with its effects on both lists and every outbox |
| IrcServer.Server.CmdJoin | irc/server.py:147-182 | 461 without argument; `0` leaves all channels; 403 for an invalid name; nothing when already on the channel; otherwise the join |
| IrcServer.Server.Unlink | irc/server.py:197-201 | both membership lists lose exactly their entry and the invariant holds |
| IrcServer.Server.Leave | irc/server.py:196-201 | every member, the leaver included, gets the PART once, and both entries go |
| IrcServer.Server.CmdPart | irc/server.py:184-204 | 461 without argument; 403 for an unknown channel; 442 for a non-member; otherwise the part |
| IrcServer.Server.CmdPrivmsg | irc/server.py:212-235 | 411, 412, 401 as the arguments dictate; a nickname target alone gets the message; a channel target's members but the sender get it, member or not |
| IrcServer.Server.Command | irc/server.py:50-58 | an unregistered session gets 451 for `join`, `part`, `privmsg` and nothing changes; otherwise the handler under the lower-cased name runs, and a name without one changes nothing and sends nothing |
| IrcServer.Server.NickRaises | irc/server.py:117-124 | the inputs on which `cmd_nick` reaches `del self.users[old]` with a missing key |
| IrcServer.Server.MsgReceived | irc/server.py:46-48 | an exception escapes exactly when the line is unparsable or it is a NICK that raises `KeyError`, and then nothing changes; otherwise the parsed command is gated and dispatched as above |
| Scenarios.UsableNick | irc/server.py:109-111 | a valid nickname of at most 9 characters is kept whole and is not `*` |
| Scenarios.NickThenUser | irc/test/test_server.py:252-255 | NICK then USER registers the session under the nickname and greets it once |
| Scenarios.UserThenNick | irc/test/test_server.py:257-260 | USER then NICK does the same |
| Scenarios.PassNickUser | irc/test/test_server.py:228-232 | a PASS first changes nothing |
| Scenarios.EmptyRealnameFirst | irc/server.py:117-121 | an empty real name sent before NICK leaves the session unregistered and silent |
| Scenarios.EmptyRealnameLast | irc/server.py:139-142 | the same empty real name sent after NICK registers it |
| Scenarios.JoinBeforeRegistering | irc/test/test_server.py:332-335 | JOIN before registration gets 451 and joins nothing |
| Scenarios.SharedNick | irc/server.py:114-121 | two unregistered connections may both take a nickname and both register under it; the table keeps the later |
| Scenarios.NameBoth | irc/server.py:114-116 | neither pending NICK is refused |
| Scenarios.RegisterBoth | irc/server.py:60-62 | the second registration overwrites the table entry of the first |
| Scenarios.UserRegisters | irc/server.py:139-142 | USER from a session with a pending nickname registers it under that nickname, overwriting any entry there |
| Scenarios.JoinThenPart | irc/test/test_server.py:410-430 | JOIN then PART restores the session's channel list and the channel's member list; a channel the JOIN created stays, empty |
| Scenarios.AfterRegistering | irc/test/test_server.py:142-160 | after registration PASS and USER get 462 and NICK to one's own nickname gets 433; nothing else changes and no other session is sent anything |
| Scenarios.ReregisterRefused | irc/server.py:93-135 | after registration PASS and USER each get 462 and change nothing; no other session is sent anything |

## Left out

- The transport is not part of this model: `irc/user.py` (a Twisted `LineReceiver`) and `irc/irc.py` (reactor, TCP listen, CRLF framing). A connection keeps only its initial field values, and `send` is an append to `outbox`.
- `socket.getfqdn()` is a foreign call. The host name is a constructor parameter.
- The `print` logging is observability only. The report of a command without a handler is the `unsupported` result of `Command`.
- The regular-expression engine is replaced by explicit character classes and greedy runs, with the one `$` corner that `valid_chan` reaches written out.
- `Server.name` and its truncation to 64 characters are left out. The server never reads them.
- `codes.py` is not part of this model. The reply codes take their three-digit values from section 5 of RFC 2812.
- QUIT, LIST, KICK, NOTICE and TOPIC have empty handlers. The model treats them as names that change nothing.
- `MsgReceived`: an exception raised by `parse_msg` (empty line, prefix without a space, no command token) or by `cmd_nick` is the `raised` result with nothing changed. What the transport then does with the connection is left out.
- `CmdNick`: a registered session whose nickname is no longer a key makes `del self.users[old]` raise `KeyError` before anything changes (`NickRaises`). The handler itself then changes nothing; `MsgReceived` reports the exception. This can happen after another connection took over its nickname and then renamed.
- Dispatch by attribute lookup also turns an `AttributeError` raised inside a handler into the "unsupported" report. No modelled handler raises one, so the model dispatches on the name only.
- `RelayEach`, `RespondEach`: iterating over a Python `set` follows an order the model leaves unspecified. Each recipient's own lines are exact; the order across recipients is not modelled.
- `Leave`: the source removes the channel from the session's list before the PART relay and removes the session from the channel after it. The relay reads only the channel's member list, so the model sends first and then removes both entries. The final state and every outbox are the same.
- `LeaveAll`: the source removes the session from each channel in turn and empties its channel list at the end. The model removes both entries channel by channel, first to last. The end state is the same.
- `Lists.RemoveFirst` gives a value when the element is absent, where Python's `list.remove` raises `ValueError`. The server never removes an absent entry: `Unlink` requires both entries, and `Valid()` provides them in `LeaveAll`.
- Sessions are attached by the ghost method `Admit`. Detaching a connection is not part of the source's server core.
- The parser's tests with upper-case input and with a prefix before several arguments are covered by the general lemmas `Parse.ParsePrefixedTrailing` and `Parse.ParsePrefixedWords`. They are not restated as literal examples.
