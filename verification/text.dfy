/** The string operations of the source's standard library that the parsers use. */
module Text {
  import opened Basics

  // ----- ASCII case -----

  function LowerChar(c: char): char {
    if 'A' <= c <= 'Z' then (c as int + 32) as char else c
  }

  function Lower(s: string): (r: string)
    ensures |r| == |s|
    ensures forall i :: 0 <= i < |s| ==> r[i] == LowerChar(s[i])
  {
    seq(|s|, i requires 0 <= i < |s| => LowerChar(s[i]))
  }

  const CAPITALS := "ABCDEFGHIJKLMNOPQRSTUVWXYZ"
  const SMALLS := "abcdefghijklmnopqrstuvwxyz"

  lemma LettersAre(i: nat)
    requires i < 26
    ensures CAPITALS[i] as int == 65 + i && SMALLS[i] as int == 97 + i
  {
  }

  /** Exactly the 26 ASCII capitals are changed, each to its small letter. */
  lemma LowerAlphabet(c: char)
    ensures forall i :: 0 <= i < 26 ==> LowerChar(CAPITALS[i]) == SMALLS[i]
    ensures c in CAPITALS <==> LowerChar(c) != c
  {
    forall i | 0 <= i < 26
      ensures LowerChar(CAPITALS[i]) == SMALLS[i] && 'A' <= CAPITALS[i] <= 'Z'
    {
      LettersAre(i);
    }
    if 'A' <= c <= 'Z' {
      LettersAre(c as int - 65);
      assert CAPITALS[c as int - 65] == c;
    }
  }

  // ----- searching and splitting -----

  predicate OccursAt(s: string, p: string, i: nat) {
    i + |p| <= |s| && s[i..i + |p|] == p
  }

  predicate Contains(s: string, p: string) {
    exists i :: 0 <= i <= |s| && OccursAt(s, p, i)
  }

  predicate StartsWith(s: string, p: string) {
    OccursAt(s, p, 0)
  }

  /** Splits at the first occurrence of `sep`. */
  function SplitOnce(s: string, sep: string): Option<(string, string)>
    requires sep != ""
  {
    if |s| < |sep| then None
    else if StartsWith(s, sep) then Some(("", s[|sep|..]))
    else match SplitOnce(s[1..], sep)
      case None => None
      case Some((a, b)) => Some(([s[0]] + a, b))
  }

  ghost predicate FirstAt(s: string, sep: string, n: nat) {
    OccursAt(s, sep, n) && forall i :: 0 <= i < n ==> !OccursAt(s, sep, i)
  }

  lemma OccursAtTail(s: string, p: string, i: nat)
    requires s != ""
    ensures OccursAt(s, p, i + 1) <==> OccursAt(s[1..], p, i)
  {
    if i + 1 + |p| <= |s| {
      assert s[i + 1..i + 1 + |p|] == s[1..][i..i + |p|];
    }
  }

  /** `SplitOnce` cuts exactly at the first occurrence, and fails exactly when there is none. */
  lemma {:induction false} SplitOnceFirst(s: string, sep: string)
    requires sep != ""
    ensures match SplitOnce(s, sep)
            case Some((a, b)) => s == a + sep + b && FirstAt(s, sep, |a|)
            case None => forall i: nat :: !OccursAt(s, sep, i)
  {
    if |s| >= |sep| && !StartsWith(s, sep) {
      SplitOnceFirst(s[1..], sep);
      forall i: nat | i > 0
        ensures OccursAt(s, sep, i) <==> OccursAt(s[1..], sep, i - 1)
      {
        OccursAtTail(s, sep, i - 1);
      }
      match SplitOnce(s[1..], sep)
      case Some((a, b)) =>
        assert s == [s[0]] + s[1..];
      case None =>
    }
  }

  lemma FirstAtUnique(s: string, sep: string, m: nat, n: nat)
    requires FirstAt(s, sep, m) && FirstAt(s, sep, n)
    ensures m == n
  {
  }

  /** The converse: a string cut at the first separator is split back into its two parts. */
  lemma SplitOnceAt(a: string, sep: string, b: string)
    requires sep != ""
    requires forall i :: 0 <= i < |a| ==> !OccursAt(a + sep + b, sep, i)
    ensures SplitOnce(a + sep + b, sep) == Some((a, b))
  {
    var s := a + sep + b;
    assert s[|a|..|a| + |sep|] == sep;
    assert FirstAt(s, sep, |a|);
    SplitOnceFirst(s, sep);
    var (x, y) := SplitOnce(s, sep).value;
    FirstAtUnique(s, sep, |a|, |x|);
    assert x == s[..|x|] == a;
    assert y == s[|x| + |sep|..] == b;
  }

  lemma SplitOnceAtChar(a: string, c: char, b: string)
    requires c !in a
    ensures SplitOnce(a + [c] + b, [c]) == Some((a, b))
  {
    forall i | 0 <= i < |a|
      ensures !OccursAt(a + [c] + b, [c], i)
    {
      assert (a + [c] + b)[i..i + 1][0] == a[i];
    }
    SplitOnceAt(a, [c], b);
  }

  /** Splitting at a single character. */
  lemma SplitOnceChar(s: string, c: char)
    ensures match SplitOnce(s, [c])
            case Some((a, b)) => s == a + [c] + b && c !in a
            case None => c !in s
  {
    SplitOnceFirst(s, [c]);
    assert forall i :: 0 <= i < |s| && s[i] == c ==> s[i..i + 1] == [c];
    match SplitOnce(s, [c])
    case Some((a, b)) =>
      forall i | 0 <= i < |a|
        ensures a[i] != c
      {
        assert !OccursAt(s, [c], i) && s[i] == a[i];
      }
    case None =>
      forall i | 0 <= i < |s|
        ensures s[i] != c
      {
        assert !OccursAt(s, [c], i);
      }
  }

  /** Splits at the last occurrence of the character `c`. */
  function RSplitOnce(s: string, c: char): (r: Option<(string, string)>)
    ensures match r
            case Some((a, b)) => s == a + [c] + b && c !in b
            case None => c !in s
  {
    if s == "" then None
    else
      var n := |s| - 1;
      if s[n] == c then Some((s[..n], ""))
      else match RSplitOnce(s[..n], c)
        case None => None
        case Some((a, b)) =>
          assert s == s[..n] + [s[n]];
          Some((a, b + [s[n]]))
  }

  lemma RSplitOnceAt(a: string, c: char, b: string)
    requires c !in b
    ensures RSplitOnce(a + [c] + b, c) == Some((a, b))
  {
    var s := a + [c] + b;
    assert s[|a|] == c && forall i :: |a| < i < |s| ==> s[i] in b;
    var (x, y) := RSplitOnce(s, c).value;
    assert s[|x|] == c && forall i :: |x| < i < |s| ==> s[i] in y;
    assert |x| == |a|;
    assert x == s[..|x|] == a;
    assert y == s[|x| + 1..] == b;
  }

  /** Splits at every occurrence of `c`; always at least one piece. */
  function Split(s: string, c: char): (r: seq<string>)
    ensures r != []
    decreases |s|
  {
    match SplitOnce(s, [c])
    case None => [s]
    case Some((a, b)) =>
      SplitOnceChar(s, c);
      [a] + Split(b, c)
  }

  function Join(pieces: seq<string>, c: char): string {
    if pieces == [] then ""
    else if |pieces| == 1 then pieces[0]
    else pieces[0] + [c] + Join(pieces[1..], c)
  }

  lemma {:induction false} SplitJoin(pieces: seq<string>, c: char)
    requires pieces != []
    requires forall i :: 0 <= i < |pieces| ==> c !in pieces[i]
    ensures Split(Join(pieces, c), c) == pieces
  {
    if |pieces| == 1 {
      SplitOnceChar(pieces[0], c);
    } else {
      SplitOnceAtChar(pieces[0], c, Join(pieces[1..], c));
      SplitJoin(pieces[1..], c);
    }
  }

  ghost predicate DoubledAt(s: string, c: char, i: int) {
    0 <= i < |s| - 1 && s[i] == c && s[i + 1] == c
  }

  /** A piece of the text is empty: it starts or ends with the separator, or has it twice in a row. */
  ghost predicate HasGap(s: string, c: char) {
    s == "" || s[0] == c || s[|s| - 1] == c || exists i :: DoubledAt(s, c, i)
  }

  lemma {:induction false} EmptyPieceIff(s: string, c: char)
    ensures "" in Split(s, c) <==> HasGap(s, c)
    decreases |s|
  {
    SplitOnceChar(s, c);
    match SplitOnce(s, [c])
    case None =>
      assert forall i :: 0 <= i < |s| ==> s[i] in s;
    case Some((a, b)) =>
      EmptyPieceIff(b, c);
      GapStep(s, a, b, c);
  }

  lemma GapStep(s: string, a: string, b: string, c: char)
    requires s == a + [c] + b && c !in a
    ensures HasGap(s, c) <==> a == "" || HasGap(b, c)
  {
    var n := |a| + 1;
    assert forall i :: 0 <= i < |b| ==> s[n + i] == b[i];
    assert forall i :: 0 <= i < |a| ==> s[i] == a[i];
    if i :| DoubledAt(b, c, i) {
      assert DoubledAt(s, c, n + i);
    }
    if b != "" && b[0] == c {
      assert DoubledAt(s, c, n - 1);
    }
    if i :| DoubledAt(s, c, i) {
      assert i >= n - 1;
      assert i >= n ==> DoubledAt(b, c, i - n);
    }
  }

  // ----- white space -----

  /** The code points with the Unicode White_Space property. */
  predicate IsSpace(c: char) {
    var n := c as int;
    || 0x9 <= n <= 0xD || n == 0x20 || n == 0x85 || n == 0xA0 || n == 0x1680
    || 0x2000 <= n <= 0x200A || n == 0x2028 || n == 0x2029 || n == 0x202F
    || n == 0x205F || n == 0x3000
  }

  /** Those are 25 code points. */
  lemma SpaceTable(c: char)
    ensures IsSpace(c) <==>
            c as int in {9, 10, 11, 12, 13, 32, 0x85, 0xA0, 0x1680, 0x2000, 0x2001, 0x2002, 0x2003, 0x2004, 0x2005, 0x2006,
                         0x2007, 0x2008, 0x2009, 0x200A, 0x2028, 0x2029, 0x202F, 0x205F, 0x3000}
  {
  }

  function TrimStart(s: string): (r: string)
    ensures |r| <= |s| && r == s[|s| - |r|..]
    ensures forall i :: 0 <= i < |s| - |r| ==> IsSpace(s[i])
    ensures r != "" ==> !IsSpace(r[0])
  {
    if s != "" && IsSpace(s[0]) then TrimStart(s[1..]) else s
  }

  function TrimEnd(s: string): (r: string)
    ensures r <= s
    ensures forall i :: |r| <= i < |s| ==> IsSpace(s[i])
    ensures r != "" ==> !IsSpace(r[|r| - 1])
  {
    if s != "" && IsSpace(s[|s| - 1]) then TrimEnd(s[..|s| - 1]) else s
  }

  function Trim(s: string): (r: string)
    ensures r != "" ==> !IsSpace(r[0]) && !IsSpace(r[|r| - 1])
  {
    TrimEnd(TrimStart(s))
  }

  ghost predicate AllSpace(s: string) {
    forall i :: 0 <= i < |s| ==> IsSpace(s[i])
  }

  /** Neither end is white space. */
  ghost predicate Tight(s: string) {
    s != "" && !IsSpace(s[0]) && !IsSpace(s[|s| - 1])
  }

  lemma {:induction false} TrimStartOf(a: string, s: string)
    requires AllSpace(a) && (s == "" || !IsSpace(s[0]))
    ensures TrimStart(a + s) == s
  {
    if a == "" {
      assert a + s == s;
    } else {
      assert (a + s)[0] == a[0] && (a + s)[1..] == a[1..] + s;
      TrimStartOf(a[1..], s);
    }
  }

  lemma {:induction false} TrimEndOf(s: string, b: string)
    requires AllSpace(b) && (s == "" || !IsSpace(s[|s| - 1]))
    ensures TrimEnd(s + b) == s
  {
    var n := |b|;
    if n == 0 {
      assert s + b == s;
    } else {
      assert (s + b)[|s + b| - 1] == b[n - 1] && (s + b)[..|s + b| - 1] == s + b[..n - 1];
      TrimEndOf(s, b[..n - 1]);
    }
  }

  /** Trimming takes off exactly the white space at both ends. */
  lemma TrimOf(a: string, s: string, b: string)
    requires AllSpace(a) && AllSpace(b) && (s == "" || Tight(s))
    ensures Trim(a + s + b) == s
  {
    if s == "" {
      assert a + s + b == (a + b) + "";
      TrimStartOf(a + b, "");
    } else {
      assert a + s + b == a + (s + b);
      TrimStartOf(a, s + b);
      TrimEndOf(s, b);
    }
  }

  lemma TrimStartParts(s: string) returns (a: string)
    ensures AllSpace(a) && s == a + TrimStart(s)
  {
    a := s[..|s| - |TrimStart(s)|];
    forall i | 0 <= i < |a|
      ensures IsSpace(a[i])
    {
      assert a[i] == s[i];
    }
  }

  lemma TrimEndParts(s: string) returns (b: string)
    ensures AllSpace(b) && s == TrimEnd(s) + b
  {
    var r := TrimEnd(s);
    b := s[|r|..];
    forall i | 0 <= i < |b|
      ensures IsSpace(b[i])
    {
      assert b[i] == s[|r| + i];
    }
  }

  /** Every string is what trimming leaves, between white space. */
  lemma TrimParts(raw: string) returns (a: string, b: string)
    ensures AllSpace(a) && AllSpace(b) && raw == a + Trim(raw) + b
    ensures Trim(raw) == "" || Tight(Trim(raw))
  {
    a := TrimStartParts(raw);
    b := TrimEndParts(TrimStart(raw));
    Associate(a, Trim(raw), b);
  }

  lemma TrimEmptyIff(raw: string)
    ensures Trim(raw) == "" <==> AllSpace(raw)
  {
    var a, b := TrimParts(raw);
    if AllSpace(raw) {
      TrimOf(raw, "", "");
      assert raw + "" + "" == raw;
    }
  }

  /** The number of leading characters that are not white space. */
  function WordEnd(s: string): (n: nat)
    ensures n <= |s|
    ensures forall i :: 0 <= i < n ==> !IsSpace(s[i])
    ensures n < |s| ==> IsSpace(s[n])
  {
    if s == "" || IsSpace(s[0]) then 0 else 1 + WordEnd(s[1..])
  }

  /** The maximal runs of non-space characters, in order. */
  function Words(s: string): seq<string>
    decreases |s|
  {
    var t := TrimStart(s);
    if t == "" then []
    else
      var n := WordEnd(t);
      [t[..n]] + Words(t[n..])
  }

  predicate IsWord(w: string) {
    w != "" && forall i :: 0 <= i < |w| ==> !IsSpace(w[i])
  }

  lemma WordsNonEmpty(s: string, i: nat)
    requires i < |s| && !IsSpace(s[i])
    ensures Words(s) != []
  {
    var t := TrimStart(s);
    assert i >= |s| - |t|;
  }

  lemma WordEndOf(w: string, rest: string)
    requires IsWord(w)
    requires rest != "" ==> IsSpace(rest[0])
    ensures WordEnd(w + rest) == |w|
  {
    var s := w + rest;
    assert forall i :: 0 <= i < |w| ==> s[i] == w[i];
    assert rest != "" ==> s[|w|] == rest[0];
  }

  /** A word followed by white space (or the end) is split off whole. */
  lemma WordsCons(w: string, rest: string)
    requires IsWord(w)
    requires rest != "" ==> IsSpace(rest[0])
    ensures Words(w + rest) == [w] + Words(rest)
  {
    var s := w + rest;
    assert !IsSpace(s[0]);
    assert TrimStart(s) == s;
    WordEndOf(w, rest);
    assert s[..|w|] == w && s[|w|..] == rest;
  }

  /** Words are what lies between any runs of white space; with the next, this says what they are. */
  lemma {:induction false} WordsAfterSpace(a: string, rest: string)
    requires AllSpace(a)
    ensures Words(a + rest) == Words(rest)
  {
    if a == "" {
      assert a + rest == rest;
    } else {
      assert a + rest == [a[0]] + (a[1..] + rest);
      WordsSkip(a[0], a[1..] + rest);
      WordsAfterSpace(a[1..], rest);
    }
  }

  /** A word at the front, ended by white space or the end of the text, is the first word. */
  lemma WordAtFront(a: string, w: string, rest: string)
    requires AllSpace(a) && IsWord(w) && (rest == "" || IsSpace(rest[0]))
    ensures Words(a) == [] && Words(a + w + rest) == [w] + Words(rest)
  {
    WordsAfterSpace(a, "");
    assert a + "" == a;
    assert a + w + rest == a + (w + rest);
    WordsAfterSpace(a, w + rest);
    WordsCons(w, rest);
  }

  lemma TrimStartSkip(c: char, rest: string)
    requires IsSpace(c)
    ensures TrimStart([c] + rest) == TrimStart(rest)
  {
    assert ([c] + rest)[1..] == rest;
  }

  lemma WordsOfTrimmed(s: string, s': string)
    requires TrimStart(s) == TrimStart(s')
    ensures Words(s) == Words(s')
  {
  }

  lemma WordsSkip(c: char, rest: string)
    requires IsSpace(c)
    ensures Words([c] + rest) == Words(rest)
  {
    TrimStartSkip(c, rest);
    WordsOfTrimmed([c] + rest, rest);
  }

  lemma {:induction false} WordsJoin(ws: seq<string>)
    requires forall w :: w in ws ==> IsWord(w)
    ensures Words(Join(ws, ' ')) == ws
  {
    if ws != [] {
      var w, rest := ws[0], ws[1..];
      WordsJoin(rest);
      WordsJoinCons(w, rest);
      assert ws == [w] + rest;
    }
  }

  lemma WordsJoinCons(w: string, rest: seq<string>)
    requires IsWord(w)
    ensures Words(Join([w] + rest, ' ')) == [w] + Words(Join(rest, ' '))
  {
    if rest == [] {
      assert Join([w] + rest, ' ') == w + "";
      WordsCons(w, "");
    } else {
      var tail := Join(rest, ' ');
      assert ([w] + rest)[1..] == rest;
      assert Join([w] + rest, ' ') == w + (" " + tail);
      WordsCons(w, " " + tail);
      WordsSkip(' ', tail);
    }
  }

  // ----- decimal numbers -----

  predicate IsDigit(c: char) { '0' <= c <= '9' }

  predicate AllDigits(s: string) {
    forall i :: 0 <= i < |s| ==> IsDigit(s[i])
  }

  function DigitsValue(s: string): nat
    requires AllDigits(s)
  {
    if s == "" then 0
    else DigitsValue(s[..|s| - 1]) * 10 + (s[|s| - 1] as int - '0' as int)
  }

  function Decimal(n: nat): (s: string)
    ensures s != "" && AllDigits(s)
  {
    var d := ('0' as int + n % 10) as char;
    if n < 10 then [d] else Decimal(n / 10) + [d]
  }

  lemma {:induction false} DecimalValue(n: nat)
    ensures DigitsValue(Decimal(n)) == n
  {
    if n >= 10 {
      DecimalValue(n / 10);
      var s := Decimal(n);
      assert s[..|s| - 1] == Decimal(n / 10);
    }
  }

  /** `str::parse::<u16>`: an optional plus sign, then one or more digits, at most 65535. */
  function ParseU16(s: string): Option<u16> {
    var digits := if s != "" && s[0] == '+' then s[1..] else s;
    if digits == "" || !AllDigits(digits) || DigitsValue(digits) >= 0x1_0000 then None
    else Some(DigitsValue(digits))
  }

  /** Accepted are exactly one or more digits of value below 65536, with or without a plus sign. */
  lemma ParseU16Iff(s: string, v: u16)
    ensures ParseU16(s) == Some(v) <==>
            exists digits :: && digits != "" && AllDigits(digits) && DigitsValue(digits) == v
                             && (s == digits || s == "+" + digits)
  {
    if s != "" && s[0] == '+' {
      assert s == "+" + s[1..];
    }
    if digits :| digits != "" && AllDigits(digits) && DigitsValue(digits) == v && (s == digits || s == "+" + digits) {
      assert IsDigit(digits[0]);
      assert s == "+" + digits ==> s[1..] == digits;
    }
  }

  lemma ParsePrintU16(p: u16)
    ensures ParseU16(Decimal(p)) == Some(p)
  {
    DecimalValue(p);
    assert IsDigit(Decimal(p)[0]);
  }
}
