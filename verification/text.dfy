/** Python's string primitives used by the modelled code: `strip`, `split`,
    `join` and `str(int)`, each with a characterisation of its result. */
module Text {
  import opened Results

  /** `s.lstrip(c)` for a single character `c`. */
  function TrimLeft(s: string, c: char): (r: string)
    ensures |r| <= |s| && r == s[|s| - |r|..]
    ensures forall i :: 0 <= i < |s| - |r| ==> s[i] == c
    ensures r == [] || r[0] != c
  {
    if |s| > 0 && s[0] == c then TrimLeft(s[1..], c) else s
  }

  /** `s.rstrip(c)` for a single character `c`. */
  function TrimRight(s: string, c: char): (r: string)
    ensures |r| <= |s| && r == s[..|r|]
    ensures forall i :: |r| <= i < |s| ==> s[i] == c
    ensures r == [] || r[|r| - 1] != c
  {
    if |s| > 0 && s[|s| - 1] == c then TrimRight(s[..|s| - 1], c) else s
  }

  /** `s.strip(c)` for a single character `c`: what is left once every leading
      and every trailing `c` is removed. */
  function Strip(s: string, c: char): (r: string)
    ensures |r| <= |s|
    ensures r == [] || (r[0] != c && r[|r| - 1] != c)
    ensures (|s| == 0 || (s[0] != c && s[|s| - 1] != c)) ==> r == s
  {
    TrimRight(TrimLeft(s, c), c)
  }

  /** One more `c` in front does not change what `Strip` keeps. */
  lemma StripIgnoresLeading(s: string, c: char)
    ensures Strip([c] + s, c) == Strip(s, c)
  {
    assert ([c] + s)[1..] == s;
  }

  /** One more `c` at the end does not change what `Strip` keeps. */
  lemma {:induction false} StripIgnoresTrailing(s: string, c: char)
    ensures Strip(s + [c], c) == Strip(s, c)
  {
    TrimLeftAppend(s, c);
    var t := TrimLeft(s, c);
    if TrimLeft(s + [c], c) == t + [c] {
      assert (t + [c])[..|t + [c]| - 1] == t;
    }
  }

  lemma {:induction false} TrimLeftAppend(s: string, c: char)
    ensures TrimLeft(s + [c], c) == TrimLeft(s, c) + [c]
         || (TrimLeft(s + [c], c) == [] && TrimLeft(s, c) == [])
    decreases |s|
  {
    if |s| > 0 {
      assert (s + [c])[1..] == s[1..] + [c];
      if s[0] == c {
        TrimLeftAppend(s[1..], c);
      }
    } else {
      assert [c][1..] == [];
    }
  }

  /** The first position of `c` in `s`, or `|s|` when `c` does not occur. */
  function IndexOf(s: string, c: char): (i: nat)
    ensures i <= |s|
    ensures i < |s| ==> s[i] == c
    ensures forall j :: 0 <= j < i ==> s[j] != c
  {
    if |s| == 0 || s[0] == c then 0 else 1 + IndexOf(s[1..], c)
  }

  /** The last position of `c` in `s`, or `|s|` when `c` does not occur. */
  function LastIndexOf(s: string, c: char): (i: nat)
    ensures i <= |s|
    ensures i < |s| ==> s[i] == c && forall j :: i < j < |s| ==> s[j] != c
    ensures i == |s| ==> c !in s
  {
    if |s| == 0 then 0
    else if s[|s| - 1] == c then |s| - 1
    else
      var k := LastIndexOf(s[..|s| - 1], c);
      if k == |s| - 1 then |s| else k
  }

  /** `sep.join(parts)` with a one-character separator. */
  function Join(parts: seq<string>, sep: char): (s: string)
    ensures |parts| == 1 ==> s == parts[0]
  {
    if |parts| == 0 then ""
    else if |parts| == 1 then parts[0]
    else parts[0] + [sep] + Join(parts[1..], sep)
  }

  /** `s.split(sep)` with a one-character separator: the maximal `sep`-free
      pieces of `s`, in order; never empty, and `[s]` exactly when `sep` does
      not occur. */
  function Split(s: string, sep: char): (parts: seq<string>)
    ensures |parts| >= 1
    ensures forall i :: 0 <= i < |parts| ==> sep !in parts[i]
    ensures Join(parts, sep) == s
    ensures |parts| == 1 <==> sep !in s
    decreases |s|
  {
    var i := IndexOf(s, sep);
    if i == |s| then [s]
    else
      var rest := Split(s[i + 1..], sep);
      JoinCons(s[..i], rest, sep);
      Around(s, i);
      [s[..i]] + rest
  }

  /** `t` sits in `s` starting at position `i`. */
  predicate OccursAt(t: string, s: string, i: int) {
    0 <= i && i + |t| <= |s| && s[i..i + |t|] == t
  }

  /** `t in s` for strings: `t` occurs in `s` as a contiguous piece. */
  predicate Occurs(t: string, s: string) {
    exists i :: 0 <= i <= |s| && OccursAt(t, s, i)
  }

  /** A string is what comes before position `i`, the character there, and
      what comes after. */
  lemma Around(s: string, i: nat)
    requires i < |s|
    ensures s == s[..i] + [s[i]] + s[i + 1..]
  {
  }

  /** A string without the separator splits into itself alone. */
  lemma SplitNoSep(s: string, sep: char)
    requires sep !in s
    ensures Split(s, sep) == [s]
  {
  }

  /** A join of at least two pieces is the first two joined, then nothing
      or the separator and the rest. */
  lemma {:induction false} JoinLead(parts: seq<string>, sep: char)
    requires |parts| >= 2
    ensures var lead := parts[0] + [sep] + parts[1];
      Join(parts, sep) == lead || lead + [sep] <= Join(parts, sep)
  {
    var rest := parts[1..];
    assert rest[0] == parts[1];
    if |parts| == 2 {
      assert Join(rest, sep) == parts[1];
    } else {
      JoinCons(rest[0], rest[1..], sep);
      assert rest == [rest[0]] + rest[1..];
    }
  }

  /** A joined list starts with its first piece. */
  lemma JoinStartsWithFirst(parts: seq<string>, sep: char)
    requires |parts| >= 1
    ensures parts[0] <= Join(parts, sep)
  {
  }

  lemma JoinCons(p: string, rest: seq<string>, sep: char)
    requires |rest| >= 1
    ensures Join([p] + rest, sep) == p + [sep] + Join(rest, sep)
  {
    assert ([p] + rest)[1..] == rest;
  }

  /** Joining two non-empty lists is joining each and putting `sep` between. */
  lemma {:induction false} JoinAppend(a: seq<string>, b: seq<string>, sep: char)
    requires |a| >= 1 && |b| >= 1
    ensures Join(a + b, sep) == Join(a, sep) + [sep] + Join(b, sep)
    decreases |a|
  {
    if |a| == 1 {
      assert (a + b)[1..] == b;
    } else {
      assert (a + b)[1..] == a[1..] + b;
      JoinAppend(a[1..], b, sep);
    }
  }

  /** A separator-free piece followed by the separator splits off as the
      first part. */
  lemma SplitCons(a: string, r: string, sep: char)
    requires sep !in a
    ensures Split(a + [sep] + r, sep) == [a] + Split(r, sep)
  {
    var s := a + [sep] + r;
    assert s[|a|] == sep;
    assert forall j :: 0 <= j < |a| ==> s[j] == a[j];
    assert IndexOf(s, sep) == |a|;
    assert s[..|a|] == a;
    assert s[|a| + 1..] == r;
  }

  /** Splitting undoes joining when no piece contains the separator. */
  lemma {:induction false} SplitJoin(parts: seq<string>, sep: char)
    requires |parts| >= 1
    requires forall i :: 0 <= i < |parts| ==> sep !in parts[i]
    ensures Split(Join(parts, sep), sep) == parts
    decreases |parts|
  {
    if |parts| == 1 {
      SplitNoSep(parts[0], sep);
    } else {
      var rest := parts[1..];
      assert parts == [parts[0]] + rest;
      JoinCons(parts[0], rest, sep);
      SplitCons(parts[0], Join(rest, sep), sep);
      SplitJoin(rest, sep);
    }
  }

  predicate IsDigit(ch: char) {
    '0' <= ch <= '9'
  }

  predicate AllDigits(s: string) {
    forall i :: 0 <= i < |s| ==> IsDigit(s[i])
  }

  function DigitChar(d: nat): (ch: char)
    requires d < 10
    ensures IsDigit(ch) && ch as int - '0' as int == d
  {
    ('0' as int + d) as char
  }

  /** The number a string of decimal digits denotes (0 for the empty string). */
  function DigitsValue(s: string): nat
    requires AllDigits(s)
  {
    if |s| == 0 then 0
    else 10 * DigitsValue(s[..|s| - 1]) + (s[|s| - 1] as int - '0' as int)
  }

  /** The decimal digits of `n`, most significant first, with no leading zero. */
  function Digits(n: nat): (s: string)
    ensures |s| >= 1 && AllDigits(s)
    ensures DigitsValue(s) == n
    ensures s[0] == '0' ==> n == 0 && s == "0"
  {
    if n < 10 then [DigitChar(n)]
    else
      var s := Digits(n / 10) + [DigitChar(n % 10)];
      assert s[..|s| - 1] == Digits(n / 10);
      s
  }

  /** `str(n)` for a Python `int`: a minus sign for negative numbers, then the digits. */
  function Decimal(n: int): (s: string)
    ensures ParseDecimal(s) == Some(n)
    ensures forall i :: 0 <= i < |s| ==> s[i] == '-' || IsDigit(s[i])
  {
    if n < 0 then
      var s := "-" + Digits(-n);
      assert s[1..] == Digits(-n);
      s
    else Digits(n)
  }

  /** `str(n)` is the canonical numeral: it starts with a minus sign exactly
      when `n` is negative, and its digits have no leading zero. */
  lemma DecimalCanonical(n: int)
    ensures var s := Decimal(n);
      && ((|s| > 0 && s[0] == '-') <==> n < 0)
      && var d := if n < 0 then s[1..] else s;
         |d| >= 1 && AllDigits(d) && (d[0] == '0' ==> d == "0")
  {
    if n < 0 {
      assert Decimal(n)[1..] == Digits(-n);
    }
  }

  /** Reads an optionally negative decimal numeral back; `None` for anything else. */
  function ParseDecimal(s: string): Option<int> {
    if |s| >= 2 && s[0] == '-' && AllDigits(s[1..]) then Some(0 - DigitsValue(s[1..]) as int)
    else if |s| >= 1 && AllDigits(s) then Some(DigitsValue(s))
    else None
  }
}
