/** The handful of Python 2 `str` operations the server relies on, on strings whose
    characters each stand for one byte: `split()` with no separator, `' '.join`, `find`/`rfind` of one character,
    `lower()` (ASCII only, as for a byte string) and slicing `s[:n]`. */
module Text {

  /** The characters `str.split()` treats as whitespace. */
  predicate IsSpace(c: char)
  {
    c == ' ' || c == '\t' || c == '\n' || c == '\r' || c == 0x0B as char || c == 0x0C as char
  }

  /** A word of `str.split()`: non-empty and free of whitespace. */
  predicate IsToken(s: string)
  {
    |s| > 0 && forall i :: 0 <= i < |s| ==> !IsSpace(s[i])
  }

  /** Length of the run of non-whitespace characters that starts `s`. */
  function RunLength(s: string): (n: nat)
    ensures n <= |s|
    ensures forall i :: 0 <= i < n ==> !IsSpace(s[i])
    ensures n < |s| ==> IsSpace(s[n])
  {
    if s == [] || IsSpace(s[0]) then 0 else 1 + RunLength(s[1..])
  }

  /** `s.split()`: the maximal whitespace-free runs of `s`, in order. */
  function Words(s: string): (r: seq<string>)
    ensures forall i :: 0 <= i < |r| ==> IsToken(r[i])
    decreases |s|
  {
    if s == [] then []
    else if IsSpace(s[0]) then Words(s[1..])
    else
      var n := RunLength(s);
      [s[..n]] + Words(s[n..])
  }

  /** `' '.join(xs)`. */
  function JoinSpace(xs: seq<string>): string
  {
    if |xs| == 0 then ""
    else if |xs| == 1 then xs[0]
    else xs[0] + " " + JoinSpace(xs[1..])
  }

  /** `s.find(c)`: the first index of `c`, or -1. */
  function Find(s: string, c: char): (i: int)
    ensures -1 <= i < |s|
    ensures i == -1 <==> c !in s
    ensures i >= 0 ==> s[i] == c && c !in s[..i]
  {
    if s == [] then -1
    else if s[0] == c then 0
    else
      var j := Find(s[1..], c);
      assert s == [s[0]] + s[1..];
      if j == -1 then -1
      else
        assert s[..j + 1] == [s[0]] + s[1..][..j];
        j + 1
  }

  /** The index `str.rsplit(c, 1)` splits at: the last index of `c`, or -1. */
  function RFind(s: string, c: char): (i: int)
    ensures -1 <= i < |s|
    ensures i == -1 <==> c !in s
    ensures i >= 0 ==> s[i] == c && c !in s[i + 1..]
  {
    if s == [] then -1
    else if s[|s| - 1] == c then |s| - 1
    else
      assert s == s[..|s| - 1] + [s[|s| - 1]];
      var j := RFind(s[..|s| - 1], c);
      if j >= 0 then assert s[j + 1..] == s[..|s| - 1][j + 1..] + [s[|s| - 1]]; j else j
  }

  /** `find` stops at the first occurrence. */
  lemma {:induction false} FindAt(a: string, c: char, b: string)
    requires c !in a
    ensures Find(a + [c] + b, c) == |a|
  {
    if a != [] {
      assert (a + [c] + b)[1..] == a[1..] + [c] + b;
      FindAt(a[1..], c, b);
    }
  }

  /** `rfind` stops at the last occurrence. */
  lemma {:induction false} RFindAt(a: string, c: char, b: string)
    requires c !in b
    ensures RFind(a + [c] + b, c) == |a|
  {
    if b != [] {
      var s := a + [c] + b;
      assert s[..|s| - 1] == a + [c] + b[..|b| - 1];
      RFindAt(a, c, b[..|b| - 1]);
    }
  }

  predicate IsUpper(c: char)
  {
    'A' <= c <= 'Z'
  }

  function LowerChar(c: char): char
  {
    if IsUpper(c) then (c as int + 32) as char else c
  }

  /** `s.lower()` on a byte string: ASCII capitals become small letters, everything else is kept. */
  function Lower(s: string): (r: string)
    ensures |r| == |s|
    ensures forall i :: 0 <= i < |s| ==> !IsUpper(r[i])
    ensures forall i :: 0 <= i < |s| && !IsUpper(s[i]) ==> r[i] == s[i]
    ensures forall i :: 0 <= i < |s| && IsUpper(s[i]) ==> r[i] as int == s[i] as int + 32
  {
    if s == [] then [] else [LowerChar(s[0])] + Lower(s[1..])
  }

  /** A string that `lower()` leaves as it is has no capital letters. */
  lemma {:induction false} LowerFixedPoint(s: string)
    ensures Lower(s) == s <==> forall i :: 0 <= i < |s| ==> !IsUpper(s[i])
  {
    if forall i :: 0 <= i < |s| ==> !IsUpper(s[i]) {
      assert forall i :: 0 <= i < |s| ==> Lower(s)[i] == s[i];
    }
  }

  /** Lower-casing twice is lower-casing once. */
  lemma LowerIdempotent(s: string)
    ensures Lower(Lower(s)) == Lower(s)
  {
    LowerFixedPoint(Lower(s));
  }

  /** `s[:n]`: at most the first `n` characters. */
  function Take(s: string, n: nat): (r: string)
    ensures |r| == if |s| <= n then |s| else n
    ensures r <= s
  {
    if |s| <= n then s else s[..n]
  }

  // ---- split and join are inverse on words ----

  lemma {:induction false} RunLengthOfToken(t: string, s: string)
    requires IsToken(t)
    requires s == [] || IsSpace(s[0])
    ensures RunLength(t + s) == |t|
    decreases |t|
  {
    assert (t + s)[0] == t[0];
    if |t| > 1 {
      assert (t + s)[1..] == t[1..] + s;
      RunLengthOfToken(t[1..], s);
    } else {
      assert (t + s)[1..] == s;
    }
  }

  /** A word followed by whitespace (or nothing) splits off as the first word. */
  lemma WordsOfTokenThen(t: string, s: string)
    requires IsToken(t)
    requires s == [] || IsSpace(s[0])
    ensures Words(t + s) == [t] + Words(s)
  {
    RunLengthOfToken(t, s);
    assert (t + s)[..|t|] == t;
    assert (t + s)[|t|..] == s;
  }

  /** `str.split()` undoes `' '.join` on whitespace-free words, with or without a trailing space. */
  lemma {:induction false} WordsOfJoin(xs: seq<string>)
    requires forall i :: 0 <= i < |xs| ==> IsToken(xs[i])
    ensures Words(JoinSpace(xs)) == xs
    ensures Words(JoinSpace(xs) + " ") == xs
  {
    if |xs| == 0 {
      assert Words(" ") == Words("");
    } else if |xs| == 1 {
      WordsOfTokenThen(xs[0], "");
      assert xs[0] + "" == xs[0];
      WordsOfTokenThen(xs[0], " ");
      assert Words(" ") == Words("");
    } else {
      WordsOfJoin(xs[1..]);
      var rest := JoinSpace(xs[1..]);
      assert JoinSpace(xs) == xs[0] + (" " + rest);
      WordsOfTokenThen(xs[0], " " + rest);
      assert Words(" " + rest) == Words(rest) by {
        assert (" " + rest)[1..] == rest;
      }
      assert JoinSpace(xs) + " " == xs[0] + (" " + (rest + " "));
      WordsOfTokenThen(xs[0], " " + (rest + " "));
      assert Words(" " + (rest + " ")) == Words(rest + " ") by {
        assert (" " + (rest + " "))[1..] == rest + " ";
      }
      assert xs == [xs[0]] + xs[1..];
    }
  }

  // ---- what `split()` does with any whitespace ----

  /** A run of whitespace, possibly empty. */
  predicate IsBlank(g: string)
  {
    forall i :: 0 <= i < |g| ==> IsSpace(g[i])
  }

  /** `g0 + w1 + g1 + ... + wn + gn`: words with whitespace around and between them. */
  function Interleave(gaps: seq<string>, ws: seq<string>): (r: string)
    requires |gaps| == |ws| + 1
    ensures gaps[0] <= r
    decreases |ws|
  {
    if ws == [] then gaps[0] else gaps[0] + ws[0] + Interleave(gaps[1..], ws[1..])
  }

  /** The gaps of `Interleave` are whitespace, and the ones between two words are not empty. */
  predicate Separating(gaps: seq<string>, ws: seq<string>)
  {
    |gaps| == |ws| + 1 &&
    (forall i :: 0 <= i < |gaps| ==> IsBlank(gaps[i])) &&
    (forall i :: 0 < i < |ws| ==> gaps[i] != [])
  }

  /** Leading whitespace is dropped. */
  lemma {:induction false} WordsAfterBlank(g: string, s: string)
    requires IsBlank(g)
    ensures Words(g + s) == Words(s)
    decreases |g|
  {
    if g != [] {
      assert (g + s)[0] == g[0] && IsSpace(g[0]);
      assert (g + s)[1..] == g[1..] + s;
      WordsAfterBlank(g[1..], s);
    } else {
      assert g + s == s;
    }
  }

  /** `str.split()` returns the words of a string, however much whitespace lies before,
      between and after them. */
  lemma {:induction false} WordsOfInterleave(gaps: seq<string>, ws: seq<string>)
    requires Separating(gaps, ws)
    requires forall i :: 0 <= i < |ws| ==> IsToken(ws[i])
    ensures Words(Interleave(gaps, ws)) == ws
    decreases |ws|
  {
    if ws == [] {
      WordsAfterBlank(gaps[0], "");
      assert gaps[0] + "" == gaps[0];
    } else {
      var rest := Interleave(gaps[1..], ws[1..]);
      assert Separating(gaps[1..], ws[1..]) by {
        assert forall i :: 0 < i < |ws[1..]| ==> gaps[1..][i] == gaps[i + 1];
      }
      WordsOfInterleave(gaps[1..], ws[1..]);
      assert rest == [] || IsSpace(rest[0]) by {
        if |ws| > 1 {
          assert gaps[1] <= rest && gaps[1] != [];
        } else {
          assert rest == gaps[1];
        }
      }
      WordsOfTokenThen(ws[0], rest);
      assert Interleave(gaps, ws) == gaps[0] + (ws[0] + rest);
      WordsAfterBlank(gaps[0], ws[0] + rest);
      assert ws == [ws[0]] + ws[1..];
    }
  }

  /** Every string is its own words with whitespace around and between them: together with
      `WordsOfInterleave`, this says that `Words(s)` is the one list of words `s` is made of. */
  function Gaps(s: string): (g: seq<string>)
    ensures Separating(g, Words(s)) && Interleave(g, Words(s)) == s
    ensures s != [] && IsSpace(s[0]) ==> g[0] != []
    decreases |s|
  {
    if s == [] then [""]
    else if IsSpace(s[0]) then
      var g := Gaps(s[1..]);
      var r := [[s[0]] + g[0]] + g[1..];
      InterleaveHead(g, Words(s[1..]), s[0]);
      assert s == [s[0]] + s[1..];
      r
    else
      var n := RunLength(s);
      var rest := s[n..];
      var g := Gaps(rest);
      var r := [""] + g;
      assert r[1..] == g;
      assert s == s[..n] + rest;
      assert Separating(r, Words(s)) by {
        assert forall i :: 0 < i < |Words(s)| ==> r[i] == g[i - 1];
      }
      r
  }

  /** Putting a character in front of the first gap puts it in front of the whole. */
  lemma InterleaveHead(g: seq<string>, ws: seq<string>, c: char)
    requires |g| == |ws| + 1
    ensures var r := [[c] + g[0]] + g[1..];
            |r| == |g| && r[1..] == g[1..] && Interleave(r, ws) == [c] + Interleave(g, ws)
  {
    var r := [[c] + g[0]] + g[1..];
    assert r[1..] == g[1..];
    if ws != [] {
      assert Interleave(r, ws) == ([c] + g[0]) + ws[0] + Interleave(g[1..], ws[1..]);
    }
  }

  /** A character that is no whitespace and occurs in no word does not occur in the whole. */
  lemma {:induction false} InterleaveAvoids(gaps: seq<string>, ws: seq<string>, c: char)
    requires Separating(gaps, ws) && !IsSpace(c)
    requires forall i :: 0 <= i < |ws| ==> c !in ws[i]
    ensures c !in Interleave(gaps, ws)
    decreases |ws|
  {
    assert forall i :: 0 <= i < |gaps[0]| ==> gaps[0][i] != c;
    if ws != [] {
      assert Separating(gaps[1..], ws[1..]) by {
        assert forall i :: 0 < i < |ws[1..]| ==> gaps[1..][i] == gaps[i + 1];
      }
      InterleaveAvoids(gaps[1..], ws[1..], c);
    }
  }

  /** A character that occurs in no word does not occur in their join, unless it is the space. */
  lemma {:induction false} JoinAvoids(xs: seq<string>, c: char)
    requires c != ' '
    requires forall i :: 0 <= i < |xs| ==> c !in xs[i]
    ensures c !in JoinSpace(xs)
  {
    if |xs| > 1 {
      JoinAvoids(xs[1..], c);
    }
  }

  /** Joining one more word appends a space and that word. */
  lemma {:induction false} JoinAppend(xs: seq<string>, y: string)
    requires xs != []
    ensures JoinSpace(xs + [y]) == JoinSpace(xs) + " " + y
  {
    if |xs| == 1 {
      assert (xs + [y])[1..] == [y];
    } else {
      assert (xs + [y])[1..] == xs[1..] + [y];
      JoinAppend(xs[1..], y);
    }
  }

  /** Joining a word in front of a list puts it before the join of the rest. */
  lemma JoinPrepend(x: string, ys: seq<string>)
    ensures JoinSpace([x] + ys) == x + (if ys == [] then "" else " " + JoinSpace(ys))
  {
    assert ([x] + ys)[1..] == ys;
  }
}
