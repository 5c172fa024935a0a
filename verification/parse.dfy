/** `parse_msg`: one protocol line, without its line terminator, becomes
    an optional prefix, a lower-cased command name and the argument list.
    A simplification of the message grammar of section 2.3.1 of RFC 2812:
    the trailing argument starts after the LAST colon of the line. */
module Parse {

  import opened Text

  datatype Message = Message(prefix: string, command: string, args: seq<string>)

  /** A leading `:` makes the text up to the first space the prefix (`split(' ', 1)`). */
  function SplitPrefix(line: string): (r: (string, string))
    requires line != [] && (line[0] == ':' ==> ' ' in line[1..])
    ensures ' ' !in r.0
    ensures line[0] == ':' ==> line == ":" + r.0 + " " + r.1
    ensures line[0] != ':' ==> r == ("", line)
  {
    if line[0] == ':' then
      var body := line[1..];
      var i := Find(body, ' ');
      assert body == body[..i] + " " + body[i + 1..];
      (body[..i], body[i + 1..])
    else ("", line)
  }

  /** The tokens after the prefix: when a `:` remains, the text before the last one is split on
      whitespace and the text after it is appended unchanged; otherwise the whole is split. */
  function Parts(rest: string): seq<string>
  {
    if Find(rest, ':') != -1 then
      var k := RFind(rest, ':');
      Words(rest[..k]) + [rest[k + 1..]]
    else Words(rest)
  }

  /** The lines `parse_msg` handles without raising: not empty, a prefix is followed by a space,
      and there is a command token. */
  predicate Parsable(line: string)
  {
    line != [] && (line[0] == ':' ==> ' ' in line[1..]) && Parts(SplitPrefix(line).1) != []
  }

  function ParseMsg(line: string): (m: Message)
    requires Parsable(line)
    ensures ' ' !in m.prefix
    ensures line[0] == ':' ==> |m.prefix| + 2 <= |line| && line[..|m.prefix| + 2] == ":" + m.prefix + " "
    ensures line[0] != ':' ==> m.prefix == ""
    ensures forall i :: 0 <= i < |m.command| ==> !IsUpper(m.command[i])
    ensures var rest := SplitPrefix(line).1;
            ':' !in rest ==> forall i :: 0 <= i < |m.args| ==> IsToken(m.args[i])
    ensures var rest := SplitPrefix(line).1;
            ':' in rest && m.args != [] ==> m.args[|m.args| - 1] == rest[RFind(rest, ':') + 1..]
  {
    var (prefix, rest) := SplitPrefix(line);
    var parts := Parts(rest);
    assert line[0] == ':' ==> line[..|prefix| + 2] == ":" + prefix + " " by {
      if line[0] == ':' { assert line == (":" + prefix + " ") + rest; }
    }
    Message(prefix, Lower(parts[0]), parts[1..])
  }

  // ---- parsing lines of the shape `[:prefix ]word word ... [:trailing]` ----

  /** A `middle` parameter in the terms of RFC 2812: a non-empty word with no whitespace and no colon. */
  predicate IsMiddle(w: string)
  {
    IsToken(w) && ':' !in w
  }

  lemma SplitPrefixOf(prefix: string, rest: string)
    requires ' ' !in prefix
    ensures var line := ":" + prefix + " " + rest;
            ' ' in line[1..] && SplitPrefix(line) == (prefix, rest)
  {
    var line := ":" + prefix + " " + rest;
    var body := line[1..];
    assert body == prefix + [' '] + rest;
    FindAt(prefix, ' ', rest);
    assert body[..|prefix|] == prefix;
    assert body[|prefix| + 1..] == rest;
  }

  /** Text followed by ` :trailing`, where the trailing text has no colon, splits at that colon. */
  lemma PartsAtLastColon(text: string, trailing: string)
    requires ':' !in trailing
    ensures Parts(text + " :" + trailing) == Words(text + " ") + [trailing]
  {
    var head := text + " ";
    var rest := text + " :" + trailing;
    assert rest == head + [':'] + trailing;
    RFindAt(head, ':', trailing);
    assert rest[..|head|] == head;
    assert rest[|head| + 1..] == trailing;
  }

  /** Words joined by spaces and followed by ` :trailing` give back the words and the trailing text. */
  lemma PartsWithTrailing(ws: seq<string>, trailing: string)
    requires forall i :: 0 <= i < |ws| ==> IsMiddle(ws[i])
    requires ':' !in trailing
    ensures Parts(JoinSpace(ws) + " :" + trailing) == ws + [trailing]
  {
    PartsAtLastColon(JoinSpace(ws), trailing);
    WordsOfJoin(ws);
  }

  /** Words joined by spaces, none containing a colon, give back the words. */
  lemma PartsWithoutTrailing(ws: seq<string>)
    requires forall i :: 0 <= i < |ws| ==> IsMiddle(ws[i])
    ensures Parts(JoinSpace(ws)) == ws
  {
    JoinAvoids(ws, ':');
    WordsOfJoin(ws);
  }

  /** A line `:prefix rest` whose rest has a first token parses into that prefix, the
      lower-cased first token and the remaining tokens. */
  lemma ParsePrefixed(line: string, prefix: string, rest: string)
    requires ' ' !in prefix && Parts(rest) != []
    requires line == ":" + prefix + " " + rest
    ensures Parsable(line) && ParseMsg(line) == Message(prefix, Lower(Parts(rest)[0]), Parts(rest)[1..])
  {
    SplitPrefixOf(prefix, rest);
  }

  lemma PrefixedLine(prefix: string, text: string, trailing: string)
    ensures ":" + prefix + " " + text + " :" + trailing == ":" + prefix + " " + (text + " :" + trailing)
  {
  }

  lemma TailOfAppend<T>(ws: seq<T>, x: T)
    requires ws != []
    ensures (ws + [x])[1..] == ws[1..] + [x]
  {
  }

  /** `:prefix w1 ... wn :trailing` parses back into its pieces, the first word lower-cased. */
  lemma ParsePrefixedTrailing(line: string, prefix: string, ws: seq<string>, trailing: string)
    requires ' ' !in prefix && ws != [] && ':' !in trailing
    requires forall i :: 0 <= i < |ws| ==> IsMiddle(ws[i])
    requires line == ":" + prefix + " " + JoinSpace(ws) + " :" + trailing
    ensures Parsable(line) && ParseMsg(line) == Message(prefix, Lower(ws[0]), ws[1..] + [trailing])
  {
    var rest := JoinSpace(ws) + " :" + trailing;
    PrefixedLine(prefix, JoinSpace(ws), trailing);
    PartsWithTrailing(ws, trailing);
    ParsePrefixed(line, prefix, rest);
    TailOfAppend(ws, trailing);
  }

  /** `:prefix w1 ... wn` parses back into its pieces, the first word lower-cased. */
  lemma ParsePrefixedWords(line: string, prefix: string, ws: seq<string>)
    requires ' ' !in prefix && ws != []
    requires forall i :: 0 <= i < |ws| ==> IsMiddle(ws[i])
    requires line == ":" + prefix + " " + JoinSpace(ws)
    ensures Parsable(line) && ParseMsg(line) == Message(prefix, Lower(ws[0]), ws[1..])
  {
    SplitPrefixOf(prefix, JoinSpace(ws));
    PartsWithoutTrailing(ws);
  }

  /** `w1 ... wn :trailing` parses back into its pieces with an empty prefix. */
  lemma ParseUnprefixedTrailing(line: string, ws: seq<string>, trailing: string)
    requires ws != [] && ':' !in trailing
    requires forall i :: 0 <= i < |ws| ==> IsMiddle(ws[i])
    requires line == JoinSpace(ws) + " :" + trailing
    ensures Parsable(line) && ParseMsg(line) == Message("", Lower(ws[0]), ws[1..] + [trailing])
  {
    PartsWithTrailing(ws, trailing);
    assert ws[0] == JoinSpace(ws)[..|ws[0]|] by { JoinStartsWithFirst(ws); }
    assert line[0] == ws[0][0];
  }

  /** `w1 ... wn`, the shape of a client command without trailing text, parses with an empty
      prefix into `lower(w1)` and the other words, case kept. */
  lemma ParseUnprefixedWords(line: string, ws: seq<string>)
    requires ws != []
    requires forall i :: 0 <= i < |ws| ==> IsMiddle(ws[i])
    requires line == JoinSpace(ws)
    ensures Parsable(line) && ParseMsg(line) == Message("", Lower(ws[0]), ws[1..])
  {
    PartsWithoutTrailing(ws);
    JoinStartsWithFirst(ws);
    assert line[0] == ws[0][0];
  }

  /** The same with any whitespace before, between and after the words: `split()` drops it. */
  lemma ParseSpacedWords(line: string, gaps: seq<string>, ws: seq<string>)
    requires ws != [] && Separating(gaps, ws)
    requires forall i :: 0 <= i < |ws| ==> IsMiddle(ws[i])
    requires line == Interleave(gaps, ws)
    ensures Parsable(line) && ParseMsg(line) == Message("", Lower(ws[0]), ws[1..])
  {
    InterleaveAvoids(gaps, ws, ':');
    WordsOfInterleave(gaps, ws);
    assert line == gaps[0] + ws[0] + Interleave(gaps[1..], ws[1..]);
    assert line[0] in line;
  }

  lemma JoinStartsWithFirst(ws: seq<string>)
    requires ws != []
    ensures |ws[0]| <= |JoinSpace(ws)| && JoinSpace(ws)[..|ws[0]|] == ws[0]
  {
  }

  lemma CommandIsLower()
    ensures Lower("command") == "command"
  {
    LowerFixedPoint("command");
  }

  // Two lines of the server's own parser tests.

  lemma ParseExampleOnlyTrailing(line: string)
    requires line == ":prefix command :trailing arg"
    ensures Parsable(line) && ParseMsg(line) == Message("prefix", "command", ["trailing arg"])
  {
    assert IsMiddle("command");
    ParsePrefixedTrailing(line, "prefix", ["command"], "trailing arg");
    CommandIsLower();
  }

  /** A command line as the server's tests send it to `msg_received`. */
  lemma ParseExampleCommandLine(line: string)
    requires line == "nick shira"
    ensures Parsable(line) && ParseMsg(line) == Message("", "nick", ["shira"])
  {
    assert IsMiddle("nick") && IsMiddle("shira");
    assert JoinSpace(["nick", "shira"]) == line;
    ParseUnprefixedWords(line, ["nick", "shira"]);
    LowerFixedPoint("nick");
  }

  lemma ParseExampleNoArgs(line: string)
    requires line == ":prefix command"
    ensures Parsable(line) && ParseMsg(line) == Message("prefix", "command", [])
  {
    ParsePrefixedWords(line, "prefix", ["command"]);
    CommandIsLower();
  }

}
