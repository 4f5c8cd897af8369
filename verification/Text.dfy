/** The text primitives the input functions rely on: trimming, splitting, and 32-bit integers. */
module Text {
  import opened Options

  /** Unicode `White_Space`, what `trim` removes. */
  predicate IsSpace(c: char) {
    var n := c as int;
    || 0x09 <= n <= 0x0D || n == 0x20 || n == 0x85 || n == 0xA0 || n == 0x1680 || 0x2000 <= n <= 0x200A
    || n == 0x2028 || n == 0x2029 || n == 0x202F || n == 0x205F || n == 0x3000
  }

  predicate NoSpaces(s: string) {
    forall i :: 0 <= i < |s| ==> !IsSpace(s[i])
  }

  function TrimStart(s: string): (r: string)
    ensures |r| <= |s|
  {
    if s != [] && IsSpace(s[0]) then TrimStart(s[1..]) else s
  }

  function TrimEnd(s: string): (r: string)
    ensures |r| <= |s|
  {
    if s != [] && IsSpace(s[|s| - 1]) then TrimEnd(s[..|s| - 1]) else s
  }

  function Trim(s: string): (r: string)
    ensures |r| <= |s|
  {
    TrimEnd(TrimStart(s))
  }

  lemma TrimPlain(s: string)
    requires s != [] ==> !IsSpace(s[0]) && !IsSpace(s[|s| - 1])
    ensures Trim(s) == s
  {
  }

  predicate AllSpaces(s: string) {
    forall i :: 0 <= i < |s| ==> IsSpace(s[i])
  }

  lemma {:induction false} TrimStartTakes(s: string)
    ensures var n := |s| - |TrimStart(s)|; AllSpaces(s[..n]) && TrimStart(s) == s[n..]
    ensures TrimStart(s) != [] ==> !IsSpace(TrimStart(s)[0])
  {
    if s != [] && IsSpace(s[0]) {
      TrimStartTakes(s[1..]);
      var n := |s| - |TrimStart(s)|;
      assert s[..n] == [s[0]] + s[1..][..n - 1];
    }
  }

  lemma {:induction false} TrimEndTakes(s: string)
    ensures var n := |TrimEnd(s)|; AllSpaces(s[n..]) && TrimEnd(s) == s[..n]
    ensures TrimEnd(s) != [] ==> !IsSpace(TrimEnd(s)[|TrimEnd(s)| - 1])
  {
    if s != [] && IsSpace(s[|s| - 1]) {
      var init := s[..|s| - 1];
      TrimEndTakes(init);
      var n := |TrimEnd(init)|;
      assert s[n..] == init[n..] + [s[|s| - 1]];
    }
  }

  /** Trimming takes white space off both ends, all of it and nothing else. */
  lemma TrimTakesSpaces(s: string) returns (before: string, after: string)
    ensures s == before + Trim(s) + after && AllSpaces(before) && AllSpaces(after)
    ensures Trim(s) != [] ==> !IsSpace(Trim(s)[0]) && !IsSpace(Trim(s)[|Trim(s)| - 1])
  {
    hide IsSpace, TrimStart, TrimEnd, AllSpaces;
    var rest := TrimStart(s);
    TrimStartTakes(s);
    TrimEndTakes(rest);
    before, after := s[..|s| - |rest|], rest[|Trim(s)|..];
    assert s == before + rest && rest == Trim(s) + after;
    assert Trim(s) != [] ==> Trim(s)[0] == rest[0];
  }

  // ---------------------------------------------------------------- splitting

  function IndexOf(s: string, c: char): (i: nat)
    requires c in s
    ensures i < |s| && s[i] == c && forall k :: 0 <= k < i ==> s[k] != c
  {
    if s[0] == c then 0 else
      assert s == [s[0]] + s[1..];
      1 + IndexOf(s[1..], c)
  }

  function LastIndexOf(s: string, c: char): (i: nat)
    requires c in s
    ensures i < |s| && s[i] == c && forall k :: i < k < |s| ==> s[k] != c
  {
    if s[|s| - 1] == c then |s| - 1 else
      assert s == s[..|s| - 1] + [s[|s| - 1]];
      LastIndexOf(s[..|s| - 1], c)
  }

  /** `split(c)`. */
  function Split(s: string, c: char): (r: seq<string>)
    ensures r != []
  {
    if c !in s then [s] else
      var i := IndexOf(s, c);
      [s[..i]] + Split(s[i + 1..], c)
  }

  /** `split_once(c)`: at the first `c`. */
  function SplitOnce(s: string, c: char): Option<(string, string)> {
    if c !in s then None else
      var i := IndexOf(s, c);
      Some((s[..i], s[i + 1..]))
  }

  /** `rsplit_once(c)`: at the last `c`. */
  function RSplitOnce(s: string, c: char): Option<(string, string)> {
    if c !in s then None else
      var i := LastIndexOf(s, c);
      Some((s[..i], s[i + 1..]))
  }

  lemma SplitsAt(a: string, c: char, b: string)
    requires c !in a
    ensures SplitOnce(a + [c] + b, c) == Some((a, b))
  {
    var s := a + [c] + b;
    assert s[|a|] == c && forall k :: 0 <= k < |a| ==> s[k] == a[k];
    var i := IndexOf(s, c);
    assert i == |a|;
    assert s[..i] == a && s[i + 1..] == b;
  }

  lemma RSplitsAt(a: string, c: char, b: string)
    requires c !in b
    ensures RSplitOnce(a + [c] + b, c) == Some((a, b))
  {
    var s := a + [c] + b;
    assert s[|a|] == c && forall k :: |a| < k < |s| ==> s[k] == b[k - |a| - 1];
    var i := LastIndexOf(s, c);
    assert i == |a|;
    assert s[..i] == a && s[i + 1..] == b;
  }

  /** A text is split in two at the first, or at the last, place the character stands. */
  lemma SplitOnceIff(s: string, c: char, a: string, b: string)
    ensures SplitOnce(s, c) == Some((a, b)) <==> s == a + [c] + b && c !in a
  {
    if s == a + [c] + b && c !in a { SplitsAt(a, c, b); }
    if SplitOnce(s, c) == Some((a, b)) {
      var i := IndexOf(s, c);
      assert s == s[..i] + [s[i]] + s[i + 1..];
    }
  }

  lemma RSplitOnceIff(s: string, c: char, a: string, b: string)
    ensures RSplitOnce(s, c) == Some((a, b)) <==> s == a + [c] + b && c !in b
  {
    if s == a + [c] + b && c !in b { RSplitsAt(a, c, b); }
    if RSplitOnce(s, c) == Some((a, b)) {
      var i := LastIndexOf(s, c);
      assert s == s[..i] + [s[i]] + s[i + 1..];
    }
  }

  function Join(parts: seq<string>, c: char): string
    requires parts != []
  {
    if |parts| == 1 then parts[0] else parts[0] + [c] + Join(parts[1..], c)
  }

  lemma {:induction false} SplitJoin(parts: seq<string>, c: char)
    requires parts != [] && forall i :: 0 <= i < |parts| ==> c !in parts[i]
    ensures Split(Join(parts, c), c) == parts
  {
    if |parts| > 1 {
      var s := parts[0] + [c] + Join(parts[1..], c);
      SplitsAt(parts[0], c, Join(parts[1..], c));
      assert s[|parts[0]|] == c;
      SplitJoin(parts[1..], c);
    }
  }

  ghost predicate PartsOf(parts: seq<string>, s: string, c: char) {
    parts != [] && (forall i :: 0 <= i < |parts| ==> c !in parts[i]) && Join(parts, c) == s
  }

  lemma PartsMore(first: string, rest: seq<string>, s: string, c: char)
    requires c !in first && PartsOf(rest, s, c)
    ensures PartsOf([first] + rest, first + [c] + s, c)
  {
    assert ([first] + rest)[1..] == rest;
    assert Join([first] + rest, c) == first + [c] + Join(rest, c);
    hide Join;
  }

  lemma SplitStep(s: string, c: char)
    requires c in s
    ensures var i := IndexOf(s, c);
            Split(s, c) == [s[..i]] + Split(s[i + 1..], c) && s == s[..i] + [c] + s[i + 1..] && c !in s[..i]
  {
    var i := IndexOf(s, c);
    assert s == s[..i] + [s[i]] + s[i + 1..];
  }

  lemma {:induction false} SplitParts(s: string, c: char)
    ensures PartsOf(Split(s, c), s, c)
  {
    if c in s {
      hide Split, PartsOf, IndexOf;
      var i := IndexOf(s, c);
      SplitStep(s, c);
      SplitParts(s[i + 1..], c);
      PartsMore(s[..i], Split(s[i + 1..], c), s[i + 1..], c);
    }
  }

  /** Splitting gives the pieces without the character that, joined by it, are the text. */
  lemma SplitIff(s: string, c: char, parts: seq<string>)
    ensures parts == Split(s, c) <==>
            parts != [] && (forall i :: 0 <= i < |parts| ==> c !in parts[i]) && Join(parts, c) == s
  {
    hide Split, Join;
    SplitParts(s, c);
    if PartsOf(parts, s, c) { SplitJoin(parts, c); }
  }

  // ---------------------------------------------------------------- integers

  const I32_MIN: int := -0x8000_0000
  const I32_MAX: int := 0x7FFF_FFFF

  predicate IsDigit(c: char) { '0' <= c <= '9' }

  function DigitOf(n: nat): (c: char)
    requires n < 10
    ensures IsDigit(c) && ValueOf(c) == n
  {
    '0' + n as char
  }

  function ValueOf(c: char): (n: nat)
    requires IsDigit(c)
    ensures n < 10
  {
    c as nat - '0' as nat
  }

  predicate AllDigits(s: string) {
    forall i :: 0 <= i < |s| ==> IsDigit(s[i])
  }

  function DigitsValue(s: string): nat
    requires AllDigits(s)
  {
    if s == [] then 0 else 10 * DigitsValue(s[..|s| - 1]) + ValueOf(s[|s| - 1])
  }

  /** Decimal `to_string` of a number that is not negative. */
  function ShowNat(n: nat): (s: string)
    ensures s != [] && AllDigits(s)
  {
    if n < 10 then [DigitOf(n)] else ShowNat(n / 10) + [DigitOf(n % 10)]
  }

  /** `str::parse::<i32>`: an optional sign, at least one digit, nothing else, and in range. */
  function ParseI32(s: string): (r: Option<int>)
    ensures r.Some? ==> I32_MIN <= r.value <= I32_MAX
  {
    var signed := s != [] && (s[0] == '+' || s[0] == '-');
    var digits := if signed then s[1..] else s;
    if digits == [] || !AllDigits(digits) then None else
      var v := if signed && s[0] == '-' then 0 - DigitsValue(digits) else DigitsValue(digits);
      if I32_MIN <= v <= I32_MAX then Some(v) else None
  }

  lemma {:induction false} ShowNatValue(n: nat)
    ensures DigitsValue(ShowNat(n)) == n
  {
    if n >= 10 {
      ShowNatValue(n / 10);
      assert ShowNat(n)[..|ShowNat(n)| - 1] == ShowNat(n / 10);
    }
  }

  lemma DigitsPlain(s: string)
    requires AllDigits(s)
    ensures NoSpaces(s) && '/' !in s && ',' !in s && ':' !in s
  {
  }

  lemma DigitsOfTwo(c: char, d: char)
    requires IsDigit(c) && IsDigit(d)
    ensures DigitsValue([c, d]) == 10 * ValueOf(c) + ValueOf(d)
  {
    assert [c, d][..1] == [c] && [c][..0] == [];
    assert DigitsValue([c]) == 10 * DigitsValue([]) + ValueOf(c);
  }

  /** Numbers are decimal, most significant digit first, with an optional sign. */
  lemma DecimalExamples()
    ensures ParseI32("-70") == Some(-70) && ParseI32("+12") == Some(12)
    ensures ParseI32("") == None && ParseI32("-") == None && ParseI32("1x") == None
  {
    DigitsOfTwo('7', '0');
    DigitsOfTwo('1', '2');
    hide DigitsValue;
    assert "-70"[1..] == ['7', '0'] && "+12"[1..] == ['1', '2'] && "-"[1..] == "";
    assert !IsDigit("1x"[1]);
  }

  /** A printed number reads back exactly when it fits 32 bits. */
  lemma ParseShow(n: nat)
    ensures ParseI32(ShowNat(n)) == if n <= I32_MAX then Some(n) else None
  {
    ShowNatValue(n);
    assert IsDigit(ShowNat(n)[0]);
  }
}
