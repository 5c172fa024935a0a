/** The two name validators of the server: the nickname pattern and the `&`-channel pattern,
    each evaluated the way Python's `re.match` evaluates it (anchored at the start only;
    the channel pattern ends in `$`). */
module Validate {

  import opened Text

  predicate IsLetter(c: char)
  {
    'a' <= c <= 'z' || 'A' <= c <= 'Z'
  }

  predicate IsDigit(c: char)
  {
    '0' <= c <= '9'
  }

  /** The "special" characters of section 2.3.1 of RFC 2812. */
  predicate IsSpecial(c: char)
  {
    c == '[' || c == ']' || c == '\\' || c == '`' || c == '_' || c == '^' || c == '{' || c == '|' || c == '}'
  }

  /** First character class of the nickname pattern. */
  predicate IsNickFirst(c: char)
  {
    IsLetter(c) || IsSpecial(c)
  }

  /** Class of the (at most 8) further characters of the nickname pattern. */
  predicate IsNickRest(c: char)
  {
    IsNickFirst(c) || IsDigit(c) || c == '-'
  }

  /** Greedy match of `[rest]{0,k}` at the start of `s`: how many characters it takes. */
  function NickRestRun(s: string, k: nat): (n: nat)
    ensures n <= |s| && n <= k
    ensures forall i :: 0 <= i < n ==> IsNickRest(s[i])
    ensures n < |s| && n < k ==> !IsNickRest(s[n])
  {
    if k == 0 || s == [] || !IsNickRest(s[0]) then 0 else 1 + NickRestRun(s[1..], k - 1)
  }

  /** Length of the text `re.match` finds for the nickname pattern at the start of `s`; 0 for no match. */
  function NickMatchLength(s: string): (n: nat)
    ensures n <= |s| && n <= 9
    ensures n > 0 ==> IsNickFirst(s[0]) && forall i :: 1 <= i < n ==> IsNickRest(s[i])
    ensures 0 < n < |s| && n < 9 ==> !IsNickRest(s[n])
  {
    if s == [] || !IsNickFirst(s[0]) then 0 else 1 + NickRestRun(s[1..], 8)
  }

  /** `valid_nick`: the pattern matches somewhere at the start. Nothing anchors its end,
      so it decides on the first character alone. */
  predicate ValidNick(s: string): (r: bool)
    ensures r <==> |s| > 0 && IsNickFirst(s[0])
  {
    NickMatchLength(s) > 0
  }

  /** The whole of `w` is matched by the nickname pattern. */
  ghost predicate NickPattern(w: string)
  {
    1 <= |w| <= 9 && IsNickFirst(w[0]) && forall i :: 1 <= i < |w| ==> IsNickRest(w[i])
  }

  /** `valid_nick` accepts exactly the strings some prefix of which is a whole nickname-pattern match. */
  lemma ValidNickIsPrefixMatch(s: string)
    ensures ValidNick(s) <==> exists n :: 1 <= n <= |s| && NickPattern(s[..n])
  {
    if ValidNick(s) {
      assert NickPattern(s[..1]);
    } else if exists n :: 1 <= n <= |s| && NickPattern(s[..n]) {
      var n :| 1 <= n <= |s| && NickPattern(s[..n]);
      assert s[..n][0] == s[0];
    }
  }

  /** Every nickname of the RFC 2812 shape is accepted ... */
  lemma RfcNicknameAccepted(s: string)
    requires NickPattern(s)
    ensures ValidNick(s)
  {
  }

  /** ... but so is a string whose first character alone fits: here one with a space and a `!`. */
  lemma OnlyFirstCharacterChecked()
    ensures ValidNick("a b!") && !NickPattern("a b!")
    ensures ValidNick("abcdefghijkl") && !NickPattern("abcdefghijkl")
  {
    assert !IsNickRest("a b!"[1]);
  }

  /** Cutting a candidate to 9 characters never changes the verdict. */
  lemma ValidNickAfterTake(s: string)
    ensures ValidNick(Take(s, 9)) == ValidNick(s)
  {
    if |s| > 9 { assert Take(s, 9)[0] == s[0]; }
  }

  /** The character class of the channel pattern, as the source writes it: seven ranges. */
  predicate IsChanChar(c: char)
  {
    || (0x01 <= c as int <= 0x06) || (0x08 <= c as int <= 0x09) || (0x0B <= c as int <= 0x0C)
    || (0x0E <= c as int <= 0x1F) || (0x21 <= c as int <= 0x2B) || (0x2D <= c as int <= 0x39)
    || (0x3B <= c as int <= 0xFF)
  }

  /** The same class as section 2.3.1 of RFC 2812 words `chanstring`: any octet but NUL, BELL, LF, CR, space, comma and colon. */
  predicate IsChanStringChar(c: char)
  {
    0x01 <= c as int <= 0xFF && c != 0x07 as char && c != '\n' && c != '\r' && c != ' ' && c != ',' && c != ':'
  }

  lemma ChanClassesAgree(c: char)
    ensures IsChanChar(c) <==> IsChanStringChar(c)
  {
  }

  /** Greedy match of `[chan]{0,k}` at the start of `s`. */
  function ChanRun(s: string, k: nat): (n: nat)
    ensures n <= |s| && n <= k
    ensures forall i :: 0 <= i < n ==> IsChanChar(s[i])
    ensures n < |s| && n < k ==> !IsChanChar(s[n])
  {
    if k == 0 || s == [] || !IsChanChar(s[0]) then 0 else 1 + ChanRun(s[1..], k - 1)
  }

  /** A whole match of the channel pattern: `&`, then 1 to 49 channel characters. */
  ghost predicate ChanPattern(s: string)
  {
    2 <= |s| <= 50 && s[0] == '&' && forall i :: 1 <= i < |s| ==> IsChanStringChar(s[i])
  }

  /** `valid_chan`: `&`, then 1 to 49 channel characters, then `$`, which Python's `re` also
      lets match just before a newline that ends the string. */
  predicate ValidChan(s: string): (r: bool)
    ensures r <==> ChanPattern(s) || (s != [] && s[|s| - 1] == '\n' && ChanPattern(s[..|s| - 1]))
  {
    if s == [] || s[0] != '&' then false
    else
      var n := ChanRun(s[1..], 49);
      assert forall i :: 1 <= i <= n ==> IsChanChar(s[i]) by {
        forall i | 1 <= i <= n ensures IsChanChar(s[i]) { assert s[1..][i - 1] == s[i]; }
      }
      assert n < |s| - 1 && n < 49 ==> !IsChanChar(s[n + 1]) by {
        if n < |s| - 1 { assert s[1..][n] == s[n + 1]; }
      }
      n >= 1 && (1 + n == |s| || (2 + n == |s| && s[|s| - 1] == '\n'))
  }

  /** The newline corner: a name may end in one line feed, and only there. */
  lemma ChannelNewlineExamples()
    ensures ValidChan("&a\n") && !ValidChan("&a\n\n") && !ValidChan("&a\nb") && !ValidChan("&\n")
  {
    assert ChanPattern("&a\n"[..2]);
    assert !IsChanStringChar("&a\n\n"[2]);
    assert !IsChanStringChar("&a\nb"[2]);
  }

  /** The prefixes the server's own tests check: only `&` with something after it passes. */
  lemma ChannelPrefixExamples()
    ensures ValidChan("&chan")
    ensures !ValidChan("#chan") && !ValidChan("!chan") && !ValidChan("+chan") && !ValidChan("chan")
    ensures !ValidChan("#") && !ValidChan("&") && !ValidChan("+") && !ValidChan("!")
  {
    assert forall i :: 1 <= i < 5 ==> IsChanStringChar("&chan"[i]);
  }

  /** The lengths the server's own tests check: 48 characters after `&` pass, 50 do not. */
  lemma ChannelLengthExamples()
    ensures ValidChan("&" + seq(48, _ => 'A')) && !ValidChan("&" + seq(50, _ => 'A'))
  {
    var s := "&" + seq(48, _ => 'A');
    assert forall i :: 1 <= i < |s| ==> s[i] == 'A';
  }

  /** The separators the server's own tests check: space, comma, colon and BELL are refused. */
  lemma ChannelSeparatorExamples()
    ensures !ValidChan("&abc def") && !ValidChan("&abc,def") && !ValidChan("&abc:def")
    ensures !ValidChan("&abc" + [0x07 as char] + "def")
  {
    assert !IsChanStringChar("&abc def"[4]);
    assert !IsChanStringChar("&abc,def"[4]);
    assert !IsChanStringChar("&abc:def"[4]);
    assert !IsChanStringChar(("&abc" + [0x07 as char] + "def")[4]);
  }

  /** The nickname cases the server's own tests check. */
  lemma NicknameExamples(c: char)
    ensures ValidNick("s") && ValidNick("abcdefghi")
    ensures IsNickFirst(c) ==> ValidNick([c] + "a1[")
    ensures (IsSpecial(c) || IsDigit(c) || c == '-') ==> ValidNick("a" + [c])
    ensures (IsDigit(c) || c == '-') ==> !ValidNick([c] + "a")
  {
  }
}
