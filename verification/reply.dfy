/** The two shapes of line the server sends: `respond` addresses the receiving session by
    nickname after the command, `respond_without_nick` relays a command as is. */
module Reply {

  import opened Text
  import opened Parse

  /** The line `respond_without_nick` sends: `:prefix command arg1 arg2 ...`. */
  function RelayLine(prefix: string, command: string, args: seq<string>): string
  {
    var head := ":" + prefix + " " + command;
    if args == [] then head else head + " " + JoinSpace(args)
  }

  /** The line `respond` sends: the receiver's nickname goes in front of the arguments. */
  function ReplyLine(prefix: string, command: string, nick: string, args: seq<string>): string
  {
    var head := ":" + prefix + " " + command + " " + nick;
    if args == [] then head else head + " " + JoinSpace(args)
  }

  /** A relayed line is the prefix followed by the command and the arguments joined by spaces. */
  lemma RelayLineJoined(prefix: string, command: string, args: seq<string>)
    ensures RelayLine(prefix, command, args) == ":" + prefix + " " + JoinSpace([command] + args)
  {
    JoinPrepend(command, args);
  }

  /** A reply is a relayed line whose first argument is the receiver's nickname. */
  lemma ReplyIsRelay(prefix: string, command: string, nick: string, args: seq<string>)
    ensures ReplyLine(prefix, command, nick, args) == RelayLine(prefix, command, [nick] + args)
  {
    JoinPrepend(nick, args);
  }

  /** A relayed line whose last argument is `:text` parses back into the prefix, the lower-cased
      command and the arguments, the last one without its colon. */
  lemma RelayLineParses(prefix: string, command: string, middle: seq<string>, text: string)
    requires ' ' !in prefix && IsMiddle(command) && ':' !in text
    requires forall i :: 0 <= i < |middle| ==> IsMiddle(middle[i])
    ensures var line := RelayLine(prefix, command, middle + [":" + text]);
            Parsable(line) && ParseMsg(line) == Message(prefix, Lower(command), middle + [text])
  {
    var ws := [command] + middle;
    assert [command] + (middle + [":" + text]) == ws + [":" + text];
    var line := RelayLine(prefix, command, middle + [":" + text]);
    RelayLineJoined(prefix, command, middle + [":" + text]);
    TrailingJoined(":" + prefix + " ", ws, text);
    ParsePrefixedTrailing(line, prefix, ws, text);
    assert ws[1..] == middle;
  }

  lemma TrailingJoined(head: string, ws: seq<string>, text: string)
    requires ws != []
    ensures head + JoinSpace(ws + [":" + text]) == head + JoinSpace(ws) + " :" + text
  {
    JoinAppend(ws, ":" + text);
  }

  /** A relayed line of middle words only parses back into the prefix, the lower-cased command
      and the arguments. */
  lemma RelayLineParsesWords(prefix: string, command: string, middle: seq<string>)
    requires ' ' !in prefix && IsMiddle(command)
    requires forall i :: 0 <= i < |middle| ==> IsMiddle(middle[i])
    ensures var line := RelayLine(prefix, command, middle);
            Parsable(line) && ParseMsg(line) == Message(prefix, Lower(command), middle)
  {
    var ws := [command] + middle;
    RelayLineJoined(prefix, command, middle);
    ParsePrefixedWords(RelayLine(prefix, command, middle), prefix, ws);
    assert ws[1..] == middle;
  }
}
