/**
 * Python values as they reach the sheet code, and the string operations the
 * code applies to them: `str()`, `str.strip()`, `s.split("\n")`,
 * `"\n".join(...)` and `s.lower()`.
 */
module PyValues {

  /** A Python value. `POther` stands for every other object (a float, a dict,
      a date, ...) and carries the text that `str()` gives for it. */
  datatype PyVal =
    | PNone
    | PBool(b: bool)
    | PInt(i: int)
    | PStr(s: string)
    | PList(items: seq<PyVal>)
    | POther(text: string)

  /** Python's `str.isspace()`: exactly the characters `strip()` removes. */
  predicate IsSpace(c: char) {
    || c == ' '
    || ('\t' <= c <= '\r')
    || ('\U{1C}' <= c <= '\U{1F}')
    || c == '\U{85}' || c == '\U{A0}' || c == '\U{1680}'
    || ('\U{2000}' <= c <= '\U{200A}')
    || c == '\U{2028}' || c == '\U{2029}' || c == '\U{202F}' || c == '\U{205F}' || c == '\U{3000}'
  }

  /** Every character of `s` is white space (so `s.strip() == ""`). */
  predicate AllSpace(s: string) {
    forall i :: 0 <= i < |s| ==> IsSpace(s[i])
  }

  /** `s.lstrip()`: `s` without its leading white space. */
  function StripLeft(s: string): string {
    if s != [] && IsSpace(s[0]) then StripLeft(s[1..]) else s
  }

  /** `lstrip()` removes a white-space prefix and leaves a suffix that does
      not start with white space. */
  lemma {:induction false} StripLeftFacts(s: string)
    ensures |StripLeft(s)| <= |s| && StripLeft(s) == s[|s| - |StripLeft(s)|..]
    ensures StripLeft(s) != [] ==> !IsSpace(StripLeft(s)[0])
    ensures AllSpace(s[..|s| - |StripLeft(s)|])
    decreases |s|
  {
    if s != [] && IsSpace(s[0]) {
      StripLeftFacts(s[1..]);
      assert s[..|s| - |StripLeft(s)|] == [s[0]] + s[1..][..|s[1..]| - |StripLeft(s[1..])|];
    } else {
      assert s[0..] == s;
    }
  }

  /** `s.rstrip()`: `s` without its trailing white space. */
  function StripRight(s: string): string {
    if s != [] && IsSpace(s[|s| - 1]) then StripRight(s[..|s| - 1]) else s
  }

  /** `rstrip()` removes a white-space suffix and leaves a prefix that does
      not end with white space. */
  lemma {:induction false} StripRightFacts(s: string)
    ensures |StripRight(s)| <= |s| && StripRight(s) == s[..|StripRight(s)|]
    ensures StripRight(s) != [] ==> !IsSpace(StripRight(s)[|StripRight(s)| - 1])
    ensures AllSpace(s[|StripRight(s)|..])
    decreases |s|
  {
    if s != [] && IsSpace(s[|s| - 1]) {
      StripRightFacts(s[..|s| - 1]);
      assert s[|StripRight(s)|..] == s[..|s| - 1][|StripRight(s[..|s| - 1])|..] + [s[|s| - 1]];
    } else {
      assert s[..|s|] == s;
    }
  }

  /** `s.strip()`. */
  function Strip(s: string): string {
    StripRight(StripLeft(s))
  }

  /** `strip()` leaves the empty string or a clean text, never a longer one. */
  lemma {:induction false} StripClean(s: string)
    ensures |Strip(s)| <= |s|
    ensures Strip(s) == [] || IsCleanText(Strip(s))
  {
    var l := StripLeft(s);
    StripLeftFacts(s);
    StripRightFacts(l);
    if Strip(s) != [] {
      assert Strip(s)[0] == l[0];
    }
  }

  /** `s.strip()` is empty exactly when `s` is all white space. */
  lemma {:induction false} StripEmptyIff(s: string)
    ensures Strip(s) == [] <==> AllSpace(s)
  {
    var l := StripLeft(s);
    StripLeftFacts(s);
    StripRightFacts(l);
    if Strip(s) == [] {
      assert l[0..] == l;
      assert l == [];
      assert s[..|s|] == s;
    } else {
      assert s[|s| - |l|] == l[0];
    }
  }

  /** A non-empty string with no white space at either end: one that `strip()`
      leaves as it is (StripOfClean). */
  predicate IsCleanText(s: string) {
    s != [] && !IsSpace(s[0]) && !IsSpace(s[|s| - 1])
  }

  /** A list of strings none of which is empty or has white space at either end. */
  predicate Clean(xs: seq<string>) {
    forall i :: 0 <= i < |xs| ==> IsCleanText(xs[i])
  }

  lemma {:induction false} StripLeftOfClean(s: string)
    requires s == [] || !IsSpace(s[0])
    ensures StripLeft(s) == s
  {
  }

  lemma {:induction false} StripRightOfClean(s: string)
    requires s == [] || !IsSpace(s[|s| - 1])
    ensures StripRight(s) == s
  {
  }

  /** `strip()` leaves a clean text as it is. */
  lemma {:induction false} StripOfClean(s: string)
    requires s == [] || IsCleanText(s)
    ensures Strip(s) == s
  {
    StripLeftOfClean(s);
    StripRightOfClean(s);
  }

  /** One leading blank before a clean text is stripped away. */
  lemma {:induction false} StripPadded(s: string)
    requires IsCleanText(s)
    ensures Strip([' '] + s) == s
  {
    StripDropsLeadingSpace(' ', s);
    StripOfClean(s);
  }

  /** `strip()` is idempotent. */
  lemma {:induction false} StripIdempotent(s: string)
    ensures Strip(Strip(s)) == Strip(s)
  {
    StripClean(s);
    StripOfClean(Strip(s));
  }

  /** A leading white-space character does not change `strip()`. */
  lemma {:induction false} StripDropsLeadingSpace(c: char, s: string)
    requires IsSpace(c)
    ensures Strip([c] + s) == Strip(s)
  {
    assert ([c] + s)[1..] == s;
  }

  /** `lstrip()` of `s + [c]` for a white-space `c`. */
  lemma {:induction false} StripLeftAppendSpace(s: string, c: char)
    requires IsSpace(c)
    ensures StripLeft(s + [c]) == if StripLeft(s) == [] then [] else StripLeft(s) + [c]
    decreases |s|
  {
    if s == [] {
      assert StripLeft([c]) == StripLeft([c][1..]);
    } else if IsSpace(s[0]) {
      assert (s + [c])[1..] == s[1..] + [c];
      StripLeftAppendSpace(s[1..], c);
    } else {
      assert (s + [c])[0] == s[0];
    }
  }

  /** A trailing white-space character does not change `strip()`. */
  lemma {:induction false} StripDropsTrailingSpace(s: string, c: char)
    requires IsSpace(c)
    ensures Strip(s + [c]) == Strip(s)
  {
    StripLeftAppendSpace(s, c);
    var l := StripLeft(s);
    if l != [] {
      assert (l + [c])[..|l + [c]| - 1] == l;
    }
  }

  /** A stripped piece keeps no character its piece lacked. */
  lemma {:induction false} StripKeepsAbsence(p: string, c: char)
    requires c !in p
    ensures c !in Strip(p)
  {
    StripLeftFacts(p);
    StripRightFacts(StripLeft(p));
  }

  /** `s.split(sep)`: the pieces of `s` between the separators; always at least one. */
  function SplitOn(s: string, sep: char): (parts: seq<string>)
    ensures |parts| >= 1
  {
    if s == [] then [""]
    else
      var rest := SplitOn(s[1..], sep);
      if s[0] == sep then [""] + rest else [[s[0]] + rest[0]] + rest[1..]
  }

  /** No piece of a split contains the separator. */
  lemma {:induction false} SplitOnPiecesLackSep(s: string, sep: char)
    ensures forall i :: 0 <= i < |SplitOn(s, sep)| ==> sep !in SplitOn(s, sep)[i]
  {
    if s != [] {
      SplitOnPiecesLackSep(s[1..], sep);
      var rest := SplitOn(s[1..], sep);
      if s[0] != sep {
        var parts := [[s[0]] + rest[0]] + rest[1..];
        forall i | 0 <= i < |parts| ensures sep !in parts[i] {
          if i > 0 { assert parts[i] == rest[i]; }
        }
      }
    }
  }

  /** `sep.join(xs)`. */
  function Join(sep: string, xs: seq<string>): string {
    if xs == [] then ""
    else if |xs| == 1 then xs[0]
    else xs[0] + sep + Join(sep, xs[1..])
  }

  /** Joining the pieces of a split gives the original string back. */
  lemma {:induction false} JoinSplitOn(s: string, sep: char)
    ensures Join([sep], SplitOn(s, sep)) == s
  {
    if s != [] {
      var rest := SplitOn(s[1..], sep);
      JoinSplitOn(s[1..], sep);
      if s[0] == sep {
        assert [""] + rest == [""] + rest;
        assert ([""] + rest)[1..] == rest;
        assert s == [sep] + s[1..];
      } else {
        var parts := [[s[0]] + rest[0]] + rest[1..];
        if |rest| == 1 {
          assert parts == [[s[0]] + rest[0]];
        } else {
          assert parts[1..] == rest[1..];
          assert Join([sep], rest) == rest[0] + [sep] + Join([sep], rest[1..]);
        }
        assert s == [s[0]] + s[1..];
      }
    }
  }

  /** Splitting a join of separator-free pieces gives the pieces back. */
  lemma {:induction false} SplitOnJoin(xs: seq<string>, sep: char)
    requires |xs| >= 1
    requires forall i :: 0 <= i < |xs| ==> sep !in xs[i]
    ensures SplitOn(Join([sep], xs), sep) == xs
    decreases |xs|, |xs[0]|
  {
    if xs[0] == [] {
      if |xs| == 1 {
      } else {
        assert Join([sep], xs) == [sep] + Join([sep], xs[1..]);
        assert ([sep] + Join([sep], xs[1..]))[1..] == Join([sep], xs[1..]);
        SplitOnJoin(xs[1..], sep);
        assert xs == [""] + xs[1..];
      }
    } else {
      var c := xs[0][0];
      var ys := [xs[0][1..]] + xs[1..];
      assert c != sep by { assert c in xs[0]; }
      assert forall i :: 0 <= i < |ys| ==> sep !in ys[i] by {
        forall i | 0 <= i < |ys| ensures sep !in ys[i] {
          if i != 0 {
            assert ys[i] == xs[i];
          }
        }
      }
      assert Join([sep], xs) == [c] + Join([sep], ys) by {
        if |xs| == 1 {
          assert xs[0] == [c] + xs[0][1..];
        } else {
          assert ys[1..] == xs[1..];
          assert xs[0] == [c] + xs[0][1..];
        }
      }
      assert ([c] + Join([sep], ys))[1..] == Join([sep], ys);
      SplitOnJoin(ys, sep);
      assert ys[0] == xs[0][1..];
      assert ys[1..] == xs[1..];
      assert [c] + xs[0][1..] == xs[0];
      assert xs == [[c] + ys[0]] + ys[1..];
    }
  }

  /** The piece list after `s + [c]`, given the piece list `p` of `s`. */
  function AppendToPieces(p: seq<string>, c: char, sep: char): seq<string>
    requires |p| >= 1
  {
    if c == sep then p + [""] else p[..|p| - 1] + [p[|p| - 1] + [c]]
  }

  lemma {:induction false} AppendToPiecesFront(h: string, rest: seq<string>, c: char, sep: char)
    requires |rest| >= 1
    ensures AppendToPieces([h] + rest, c, sep) == [h] + AppendToPieces(rest, c, sep)
  {
    var p := [h] + rest;
    if c != sep {
      assert p[..|p| - 1] == [h] + rest[..|rest| - 1];
    }
  }

  lemma {:induction false} AppendToPiecesHead(h: string, rest: seq<string>, c: char, sep: char)
    requires |rest| >= 1
    ensures var r := AppendToPieces(rest, c, sep);
      AppendToPieces([h + rest[0]] + rest[1..], c, sep) == [h + r[0]] + r[1..]
  {
    var r := AppendToPieces(rest, c, sep);
    var q := [h + rest[0]] + rest[1..];
    if c == sep {
      assert r[0] == rest[0];
      assert r[1..] == rest[1..] + [""];
      assert q + [""] == [h + rest[0]] + (rest[1..] + [""]);
    } else if |rest| == 1 {
      assert r == [rest[0] + [c]];
      assert q == [h + rest[0]];
      assert (h + rest[0]) + [c] == h + (rest[0] + [c]);
    } else {
      assert r[0] == rest[0];
      AppendToPiecesFront(h + rest[0], rest[1..], c, sep);
      AppendToPiecesFront(rest[0], rest[1..], c, sep);
      assert rest == [rest[0]] + rest[1..];
    }
  }

  /** `s.split(sep)` of `s + [c]`: the last piece grows, or a new empty piece starts. */
  lemma {:induction false} SplitOnAppend(s: string, c: char, sep: char)
    ensures SplitOn(s + [c], sep) == AppendToPieces(SplitOn(s, sep), c, sep)
    decreases |s|
  {
    if s == [] {
      assert [c][1..] == [];
      assert SplitOn([c][1..], sep) == [""];
      assert s + [c] == [c];
      assert SplitOn(s, sep) == [""];
      if c == sep {
        assert SplitOn([c], sep) == [""] + [""];
      } else {
        assert [c] + "" == [c];
        assert [""][1..] == [];
        assert SplitOn([c], sep) == [[c]];
        assert AppendToPieces([""], c, sep) == [[c]];
      }
    } else {
      assert (s + [c])[1..] == s[1..] + [c];
      assert (s + [c])[0] == s[0];
      SplitOnAppend(s[1..], c, sep);
      var rest := SplitOn(s[1..], sep);
      var r := SplitOn(s[1..] + [c], sep);
      if s[0] == sep {
        assert SplitOn(s, sep) == [""] + rest;
        assert SplitOn(s + [c], sep) == [""] + r;
        AppendToPiecesFront("", rest, c, sep);
      } else {
        assert SplitOn(s, sep) == [[s[0]] + rest[0]] + rest[1..];
        assert SplitOn(s + [c], sep) == [[s[0]] + r[0]] + r[1..];
        AppendToPiecesHead([s[0]], rest, c, sep);
      }
    }
  }

  /** `[p.strip() for p in parts if p.strip()]`. */
  function CleanParts(parts: seq<string>): (r: seq<string>)
    ensures |r| <= |parts|
  {
    if parts == [] then []
    else
      var p := Strip(parts[0]);
      (if p == "" then [] else [p]) + CleanParts(parts[1..])
  }

  /** Every kept part is non-empty and trimmed. */
  lemma {:induction false} CleanPartsClean(parts: seq<string>)
    ensures Clean(CleanParts(parts))
  {
    if parts != [] {
      CleanPartsClean(parts[1..]);
      StripClean(parts[0]);
    }
  }

  lemma {:induction false} CleanPartsSingle(x: string)
    ensures CleanParts([x]) == if Strip(x) == "" then [] else [Strip(x)]
  {
    assert [x][1..] == [];
  }

  lemma {:induction false} CleanPartsAppend(a: seq<string>, b: seq<string>)
    ensures CleanParts(a + b) == CleanParts(a) + CleanParts(b)
  {
    if a != [] {
      assert (a + b)[0] == a[0];
      assert (a + b)[1..] == a[1..] + b;
      CleanPartsAppend(a[1..], b);
    } else {
      assert a + b == b;
    }
  }

  /** Cleaning an already clean list changes nothing. */
  lemma {:induction false} CleanPartsOfClean(xs: seq<string>)
    requires Clean(xs)
    ensures CleanParts(xs) == xs
  {
    if xs != [] {
      CleanPartsOfClean(xs[1..]);
      assert xs == [xs[0]] + xs[1..];
    }
  }

  /** `[p.strip() for p in s.split("\n") if p.strip()]`: the non-blank lines of `s`, trimmed. */
  function CleanLines(s: string): seq<string> {
    CleanParts(SplitOn(s, '\n'))
  }

  /** Every kept line is non-empty and trimmed. */
  lemma {:induction false} CleanLinesClean(s: string)
    ensures Clean(CleanLines(s))
  {
    CleanPartsClean(SplitOn(s, '\n'));
  }

  lemma StripOfEmpty()
    ensures Strip("") == ""
  {
  }

  lemma SplitOnEmpty(sep: char)
    ensures SplitOn("", sep) == [""]
  {
  }

  /** A blank text has no lines left. */
  lemma {:induction false} CleanLinesOfBlank(s: string)
    requires Strip(s) == ""
    ensures CleanLines(s) == []
  {
    CleanLinesStrip(s);
    SplitOnEmpty('\n');
    StripOfEmpty();
    assert [""][1..] == [];
  }

  lemma {:induction false} CleanLinesDropsLeadingSpace(c: char, s: string)
    requires IsSpace(c)
    ensures CleanLines([c] + s) == CleanLines(s)
  {
    assert ([c] + s)[1..] == s;
    var rest := SplitOn(s, '\n');
    if c != '\n' {
      StripDropsLeadingSpace(c, rest[0]);
      assert ([[c] + rest[0]] + rest[1..])[1..] == rest[1..];
      assert rest == [rest[0]] + rest[1..];
    } else {
      assert ([""] + rest)[1..] == rest;
    }
  }

  lemma {:induction false} CleanLinesDropsTrailingSpace(s: string, c: char)
    requires IsSpace(c)
    ensures CleanLines(s + [c]) == CleanLines(s)
  {
    var p := SplitOn(s, '\n');
    SplitOnAppend(s, c, '\n');
    assert SplitOn(s + [c], '\n') == AppendToPieces(p, c, '\n');
    if c == '\n' {
      CleanPartsAppend(p, [""]);
      assert CleanParts([""]) == [];
    } else {
      var init := p[..|p| - 1];
      var last := p[|p| - 1];
      assert p == init + [last];
      CleanPartsAppend(init, [last + [c]]);
      CleanPartsAppend(init, [last]);
      StripDropsTrailingSpace(last, c);
      CleanPartsSingle(last + [c]);
      CleanPartsSingle(last);
    }
  }

  lemma {:induction false} CleanLinesStripLeft(s: string)
    ensures CleanLines(StripLeft(s)) == CleanLines(s)
  {
    if s != [] && IsSpace(s[0]) {
      var t := s[1..];
      assert s == [s[0]] + t;
      assert StripLeft(s) == StripLeft(t);
      CleanLinesStripLeft(t);
      CleanLinesDropsLeadingSpace(s[0], t);
    }
  }

  lemma {:induction false} CleanLinesStripRight(s: string)
    ensures CleanLines(StripRight(s)) == CleanLines(s)
  {
    if s != [] && IsSpace(s[|s| - 1]) {
      var t := s[..|s| - 1];
      assert s == t + [s[|s| - 1]];
      assert StripRight(s) == StripRight(t);
      CleanLinesStripRight(t);
      CleanLinesDropsTrailingSpace(t, s[|s| - 1]);
    }
  }

  /** Trimming a text first does not change its non-blank trimmed lines. */
  lemma {:induction false} CleanLinesStrip(s: string)
    ensures CleanLines(Strip(s)) == CleanLines(s)
  {
    CleanLinesStripRight(StripLeft(s));
    CleanLinesStripLeft(s);
  }

  /** The lines of a text without a line break: the trimmed text, if not blank. */
  lemma {:induction false} CleanLinesSingle(s: string)
    requires '\n' !in s
    ensures CleanLines(s) == if Strip(s) == "" then [] else [Strip(s)]
  {
    SplitOnJoin([s], '\n');
    assert Join(['\n'], [s]) == s;
    assert [s][1..] == [];
  }

  function Digit(d: nat): char
    requires d < 10
  {
    "0123456789"[d]
  }

  /** `str(n)` for a natural number. */
  function NatToString(n: nat): (r: string)
    ensures |r| >= 1
    ensures forall i :: 0 <= i < |r| ==> '0' <= r[i] <= '9'
  {
    if n < 10 then [Digit(n)] else NatToString(n / 10) + [Digit(n % 10)]
  }

  /** `str(i)` for an integer. */
  function IntToString(i: int): string {
    if i < 0 then "-" + NatToString(-i) else NatToString(i)
  }

  /** `str(v)`. A list is shown as `[a, b]` with its string elements quoted;
      the quote escaping of `repr` is not modelled. */
  function Str(v: PyVal): (r: string)
    ensures v.PStr? ==> r == v.s
    ensures v.PList? ==> |r| >= 2 && r[0] == '['
    decreases v
  {
    match v
    case PNone => "None"
    case PBool(b) => if b then "True" else "False"
    case PInt(i) => IntToString(i)
    case PStr(s) => s
    case PList(xs) =>
      "[" + Join(", ", seq(|xs|, k requires 0 <= k < |xs| =>
                         if xs[k].PStr? then "'" + xs[k].s + "'" else Str(xs[k]))) + "]"
    case POther(t) => t
  }

  /** `[str(x) for x in xs]`. */
  function MapStr(xs: seq<PyVal>): (r: seq<string>)
    ensures |r| == |xs|
    ensures forall k :: 0 <= k < |xs| ==> r[k] == Str(xs[k])
  {
    seq(|xs|, k requires 0 <= k < |xs| => Str(xs[k]))
  }

  /** A Python list of the given strings. */
  function StrList(xs: seq<string>): (v: PyVal)
    ensures v.PList? && |v.items| == |xs|
    ensures forall k :: 0 <= k < |xs| ==> v.items[k] == PStr(xs[k])
  {
    PList(seq(|xs|, k requires 0 <= k < |xs| => PStr(xs[k])))
  }

  /** `s.lower()` on the ASCII letters. */
  function LowerAscii(s: string): (r: string)
    ensures |r| == |s|
  {
    seq(|s|, k requires 0 <= k < |s| =>
          if 'A' <= s[k] <= 'Z' then (s[k] as int + 32) as char else s[k])
  }
}
