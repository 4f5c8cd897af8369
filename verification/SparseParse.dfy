/** Reading the text form of a sparse vector. */
module SparseParse {
  import opened Collections
  import opened Options
  import opened Text
  import opened Sparsevec

  datatype ParseError =
    | NoSlash | BadDimension | NoOpenBrace | NoCloseBrace
    | NoColon(at: nat) | BadIndex(at: nat) | IndexBelowOne(at: nat) | BadValue(at: nat) | ValueNotFinite(at: nat)

  datatype Parsed<T> = Ok(value: T) | Err(error: ParseError)

  datatype Entry = Entry(index: int, value: Float)

  datatype Literal = Literal(dim: int, entries: seq<Entry>)

  /** The dimension and what stands between the braces. */
  function Header(text: string): Parsed<(int, string)> {
    match RSplitOnce(Trim(text), '/')
    case None => Err(NoSlash)
    case Some((front, dimText)) =>
      match ParseI32(Trim(dimText))
      case None => Err(BadDimension)
      case Some(dim) =>
        var braced := Trim(front);
        if braced == [] || braced[0] != '{' then Err(NoOpenBrace)
        else if braced[1..] == [] || braced[|braced| - 1] != '}' then Err(NoCloseBrace)
        else Ok((dim, Trim(braced[1..|braced| - 1])))
  }

  /** One `index:value`; the index in the text counts from 1. */
  function ParseEntry(token: string, f: Floats, at: nat): Parsed<Entry> {
    match SplitOnce(Trim(token), ':')
    case None => Err(NoColon(at))
    case Some((indexText, valueText)) =>
      match ParseI32(Trim(indexText))
      case None => Err(BadIndex(at))
      case Some(index) =>
        if index < 1 then Err(IndexBelowOne(at)) else
          match f.parse(Trim(valueText))
          case None => Err(BadValue(at))
          case Some(NotFinite) => Err(ValueNotFinite(at))
          case Some(Finite(v)) => Ok(Entry(index - 1, Finite(v)))
  }

  /** The first `n` tokens; the first bad one decides the error. */
  function ParseEntries(tokens: seq<string>, f: Floats, n: nat): Parsed<seq<Entry>>
    requires n <= |tokens|
  {
    if n == 0 then Ok([]) else
      match ParseEntries(tokens, f, n - 1)
      case Err(e) => Err(e)
      case Ok(entries) =>
        match ParseEntry(tokens[n - 1], f, n - 1)
        case Err(e) => Err(e)
        case Ok(entry) => Ok(entries + [entry])
  }

  function ParseSparsevec(text: string, f: Floats): Parsed<Literal> {
    match Header(text)
    case Err(e) => Err(e)
    case Ok((dim, body)) =>
      if body == [] then Ok(Literal(dim, [])) else
        var tokens := Split(body, ',');
        match ParseEntries(tokens, f, |tokens|)
        case Err(e) => Err(e)
        case Ok(entries) => Ok(Literal(dim, entries))
  }

  // ---------------------------------------------------------------- the language accepted

  /** `index:value`, white space allowed around both, the index counted from 1. */
  ghost predicate ReadsEntry(token: string, f: Floats, e: Entry) {
    && e.index >= 0 && e.value.Finite?
    && exists indexText, valueText ::
         && Trim(token) == indexText + [':'] + valueText && ':' !in indexText
         && ParseI32(Trim(indexText)) == Some(e.index + 1) && f.parse(Trim(valueText)) == Some(e.value)
  }

  /** Nothing, or entries separated by commas. */
  ghost predicate ReadsBody(body: string, f: Floats, entries: seq<Entry>) {
    if body == [] then entries == [] else
      exists tokens: seq<string> ::
        && |tokens| == |entries| > 0 && Join(tokens, ',') == body
        && (forall k :: 0 <= k < |tokens| ==> ',' !in tokens[k] && ReadsEntry(tokens[k], f, entries[k]))
  }

  /** What stands before the last slash, after it, and between the braces. */
  ghost predicate Framed(text: string, dim: int, front: string, dimText: string, inner: string) {
    && Trim(text) == front + ['/'] + dimText && '/' !in dimText
    && ParseI32(Trim(dimText)) == Some(dim) && Trim(front) == ['{'] + inner + ['}']
  }

  /** `{entries}/dim`, white space allowed around every part. */
  ghost predicate Reads(text: string, f: Floats, literal: Literal) {
    exists front, dimText, inner ::
      Framed(text, literal.dim, front, dimText, inner) && ReadsBody(Trim(inner), f, literal.entries)
  }

  lemma EntryIff(token: string, f: Floats, at: nat, e: Entry)
    ensures ParseEntry(token, f, at) == Ok(e) <==> ReadsEntry(token, f, e)
  {
    hide Trim, SplitOnce, ParseI32;
    var t := Trim(token);
    if ParseEntry(token, f, at) == Ok(e) {
      var (indexText, valueText) := SplitOnce(t, ':').value;
      SplitOnceIff(t, ':', indexText, valueText);
      assert ReadsEntry(token, f, e);
    }
    if ReadsEntry(token, f, e) {
      var indexText, valueText :|
        && t == indexText + [':'] + valueText && ':' !in indexText
        && ParseI32(Trim(indexText)) == Some(e.index + 1) && f.parse(Trim(valueText)) == Some(e.value);
      SplitOnceIff(t, ':', indexText, valueText);
    }
  }

  lemma {:induction false} EntriesIff(tokens: seq<string>, f: Floats, n: nat, entries: seq<Entry>)
    requires n <= |tokens|
    ensures ParseEntries(tokens, f, n) == Ok(entries) <==>
            |entries| == n && forall k :: 0 <= k < n ==> ReadsEntry(tokens[k], f, entries[k])
  {
    hide ParseEntry, ReadsEntry;
    if n > 0 {
      var last := ParseEntry(tokens[n - 1], f, n - 1);
      if |entries| == n {
        var init := entries[..n - 1];
        EntriesIff(tokens, f, n - 1, init);
        EntryIff(tokens[n - 1], f, n - 1, entries[n - 1]);
        assert entries == init + [entries[n - 1]];
        assert forall k :: 0 <= k < n - 1 ==> init[k] == entries[k];
      }
      if ParseEntries(tokens, f, n) == Ok(entries) {
        EntriesIff(tokens, f, n - 1, ParseEntries(tokens, f, n - 1).value);
      }
    }
  }

  lemma BodyIff(body: string, f: Floats, entries: seq<Entry>)
    requires body != []
    ensures ParseEntries(Split(body, ','), f, |Split(body, ',')|) == Ok(entries) <==> ReadsBody(body, f, entries)
  {
    hide Split, Join, ReadsEntry, ParseEntries;
    var tokens := Split(body, ',');
    SplitIff(body, ',', tokens);
    EntriesIff(tokens, f, |tokens|, entries);
    if ReadsBody(body, f, entries) {
      var given: seq<string> :|
        && |given| == |entries| > 0 && Join(given, ',') == body
        && (forall k :: 0 <= k < |given| ==> ',' !in given[k] && ReadsEntry(given[k], f, entries[k]));
      SplitIff(body, ',', given);
    }
  }

  lemma HeaderIff(text: string, dim: int, body: string)
    ensures Header(text) == Ok((dim, body)) <==>
            exists front, dimText, inner :: Framed(text, dim, front, dimText, inner) && body == Trim(inner)
  {
    hide Trim, RSplitOnce, ParseI32;
    var t := Trim(text);
    if Header(text) == Ok((dim, body)) {
      var (front, dimText) := RSplitOnce(t, '/').value;
      RSplitOnceIff(t, '/', front, dimText);
      var braced := Trim(front);
      var inner := braced[1..|braced| - 1];
      assert braced == ['{'] + inner + ['}'];
      assert Framed(text, dim, front, dimText, inner);
    }
    if front, dimText, inner :| Framed(text, dim, front, dimText, inner) && body == Trim(inner) {
      RSplitOnceIff(t, '/', front, dimText);
      var braced := Trim(front);
      assert braced[0] == '{' && braced[1..] != [] && braced[|braced| - 1] == '}' && braced[1..|braced| - 1] == inner;
    }
  }

  lemma LiteralIff(body: string, f: Floats, dim: int, literal: Literal)
    ensures (if body == [] then literal == Literal(dim, []) else
               literal.dim == dim && ParseEntries(Split(body, ','), f, |Split(body, ',')|) == Ok(literal.entries)) <==>
            literal.dim == dim && ReadsBody(body, f, literal.entries)
  {
    hide Split, ParseEntries, ReadsBody;
    if body == [] { NoBody(f, literal.entries); } else { BodyIff(body, f, literal.entries); }
  }

  /** A text is read as a literal exactly when it is written in this form. */
  lemma ParseIff(text: string, f: Floats, literal: Literal)
    ensures ParseSparsevec(text, f) == Ok(literal) <==> Reads(text, f, literal)
  {
    hide Header, Trim, Split, ParseEntries, ReadsBody, Framed;
    if ParseSparsevec(text, f) == Ok(literal) {
      var (dim, body) := Header(text).value;
      HeaderIff(text, dim, body);
      LiteralIff(body, f, dim, literal);
    }
    if Reads(text, f, literal) {
      var front, dimText, inner :|
        Framed(text, literal.dim, front, dimText, inner) && ReadsBody(Trim(inner), f, literal.entries);
      HeaderIff(text, literal.dim, Trim(inner));
      LiteralIff(Trim(inner), f, literal.dim, literal);
    }
  }

  lemma NoBody(f: Floats, entries: seq<Entry>)
    ensures ReadsBody([], f, entries) <==> entries == []
  {
  }

  // ---------------------------------------------------------------- the token loop

  lemma {:induction false} ErrorStays(tokens: seq<string>, f: Floats, n: nat, m: nat)
    requires n <= m <= |tokens| && ParseEntries(tokens, f, n).Err?
    ensures ParseEntries(tokens, f, m) == ParseEntries(tokens, f, n)
    decreases m
  {
    hide ParseEntry;
    if n < m { ErrorStays(tokens, f, n, m - 1); }
  }

  /** The token loop stops at the first token it cannot read. */
  method Parse(text: string, f: Floats) returns (r: Parsed<Literal>)
    ensures r == ParseSparsevec(text, f)
  {
    var header := Header(text);
    if header.Err? {
      return Err(header.error);
    }
    var (dim, body) := header.value;
    if body == [] {
      return Ok(Literal(dim, []));
    }
    var tokens := Split(body, ',');
    var entries: seq<Entry> := [];
    for i := 0 to |tokens|
      invariant ParseEntries(tokens, f, i) == Ok(entries)
    {
      var entry := ParseEntry(tokens[i], f, i);
      if entry.Err? {
        ErrorStays(tokens, f, i + 1, |tokens|);
        return Err(entry.error);
      }
      entries := entries + [entry.value];
    }
    r := Ok(Literal(dim, entries));
  }

  datatype InputResult = Vector(v: Sparsevec) | Unreadable(error: ParseError) | Rejected(why: NewResult)

  function Indices(entries: seq<Entry>): (r: seq<int>)
    ensures |r| == |entries| && forall k :: 0 <= k < |r| ==> r[k] == entries[k].index
  {
    seq(|entries|, k requires 0 <= k < |entries| => entries[k].index)
  }

  function FloatsOf(entries: seq<Entry>): (r: seq<Float>)
    ensures |r| == |entries| && forall k :: 0 <= k < |r| ==> r[k] == entries[k].value
  {
    seq(|entries|, k requires 0 <= k < |entries| => entries[k].value)
  }

  method Input(text: string, f: Floats) returns (r: InputResult)
    ensures r.Unreadable? <==> ParseSparsevec(text, f).Err?
    ensures r.Vector? ==> Valid(r.v)
    ensures r.Vector? <==> (ParseSparsevec(text, f).Ok? && MakesVector(ParseSparsevec(text, f).value))
    ensures r.Vector? ==> r.v == VectorOf(ParseSparsevec(text, f).value)
  {
    var parsed := Parse(text, f);
    if parsed.Err? {
      return Unreadable(parsed.error);
    }
    var literal := parsed.value;
    var made := New(literal.dim, Indices(literal.entries), FloatsOf(literal.entries));
    r := if made.Made? then Vector(made.v) else Rejected(made);
  }

  predicate MakesVector(l: Literal) {
    && 1 <= l.dim <= MAX_DIM && Ascending(Indices(l.entries))
    && forall k :: 0 <= k < |l.entries| ==> 0 <= l.entries[k].index < l.dim && l.entries[k].value.Finite?
  }

  function VectorOf(l: Literal): Sparsevec
    requires MakesVector(l)
  {
    Sparsevec(l.dim, Indices(l.entries), Values(FloatsOf(l.entries)))
  }

  // ---------------------------------------------------------------- printing and reading back

  function EntriesOf(v: Sparsevec): (r: seq<Entry>)
    requires Valid(v)
    ensures |r| == |v.indices| && forall k :: 0 <= k < |r| ==> r[k] == Entry(v.indices[k], Finite(v.values[k]))
  {
    seq(|v.indices|, k requires 0 <= k < |v.indices| => Entry(v.indices[k], Finite(v.values[k])))
  }

  ghost predicate Representable(v: Sparsevec, f: Floats) {
    forall k :: 0 <= k < |v.values| ==> f.has(v.values[k])
  }

  lemma NoSpaceTrim(s: string)
    requires NoSpaces(s)
    ensures Trim(s) == s
  {
    TrimPlain(s);
  }

  lemma TokenPlain(v: Sparsevec, f: Floats, k: nat)
    requires Valid(v) && Faithful(f) && Representable(v, f) && k < |v.indices|
    ensures Token(v, f, k) != [] && NoSpaces(Token(v, f, k)) && ',' !in Token(v, f, k)
  {
    var digits, shown := ShowNat(v.indices[k] + 1), f.show(v.values[k]);
    Shown(f, v.values[k]);
    DigitsPlain(digits);
    PlainConcat(digits, [':']);
    PlainConcat(digits + [':'], shown);
  }

  lemma Shown(f: Floats, x: real)
    requires Faithful(f) && f.has(x)
    ensures f.parse(f.show(x)) == Some(Finite(x)) && f.show(x) != [] && NoSpaces(f.show(x)) && ',' !in f.show(x)
  {
  }

  lemma PlainConcat(a: string, b: string)
    requires NoSpaces(a) && NoSpaces(b) && ',' !in a && ',' !in b
    ensures NoSpaces(a + b) && ',' !in a + b
  {
    hide IsSpace;
  }

  lemma TokenReads(v: Sparsevec, f: Floats, k: nat)
    requires Valid(v) && Faithful(f) && Representable(v, f) && k < |v.indices|
    ensures ParseEntry(Token(v, f, k), f, k) == Ok(EntriesOf(v)[k])
  {
    assert f.has(v.values[k]);
    TokenPlain(v, f, k);
    NoSpaceTrim(Token(v, f, k));
    var digits, shown := ShowNat(v.indices[k] + 1), f.show(v.values[k]);
    DigitsPlain(digits);
    SplitsAt(digits, ':', shown);
    NoSpaceTrim(digits);
    ParseShow(v.indices[k] + 1);
    NoSpaceTrim(shown);
  }

  lemma {:induction false} TokensRead(v: Sparsevec, f: Floats, n: nat)
    requires Valid(v) && Faithful(f) && Representable(v, f) && n <= |v.indices|
    ensures ParseEntries(Tokens(v, f), f, n) == Ok(EntriesOf(v)[..n])
  {
    hide ParseEntry, Token, Faithful, Representable, Valid;
    if n > 0 {
      TokensRead(v, f, n - 1);
      TokenReads(v, f, n - 1);
      assert Tokens(v, f)[n - 1] == Token(v, f, n - 1);
      assert EntriesOf(v)[..n] == EntriesOf(v)[..n - 1] + [EntriesOf(v)[n - 1]];
    }
  }

  lemma {:induction false} JoinPlain(tokens: seq<string>)
    requires tokens != [] && forall k :: 0 <= k < |tokens| ==> tokens[k] != [] && NoSpaces(tokens[k])
    ensures NoSpaces(Join(tokens, ',')) && Join(tokens, ',') != []
  {
    if |tokens| > 1 { JoinPlain(tokens[1..]); }
  }

  lemma Punctuation()
    ensures NoSpaces(['{']) && NoSpaces(['}']) && NoSpaces(['/'])
  {
  }

  lemma NoSpacesConcat(a: string, b: string)
    requires NoSpaces(a) && NoSpaces(b)
    ensures NoSpaces(a + b)
  {
    hide IsSpace;
  }

  lemma HeaderReads(body: string, dim: nat)
    requires NoSpaces(body) && dim <= I32_MAX
    ensures Header(['{'] + body + ['}'] + ['/'] + ShowNat(dim)) == Ok((dim, body))
  {
    hide *;
    var braced, digits := ['{'] + body + ['}'], ShowNat(dim);
    var text := braced + ['/'] + digits;
    DigitsPlain(digits);
    Punctuation();
    NoSpacesConcat(['{'], body);
    NoSpacesConcat(['{'] + body, ['}']);
    NoSpacesConcat(braced, ['/']);
    NoSpacesConcat(braced + ['/'], digits);
    NoSpaceTrim(text);
    NoSpaceTrim(digits);
    NoSpaceTrim(braced);
    NoSpaceTrim(body);
    ParseShow(dim);
    assert Framed(text, dim, braced, digits, body) by { FramedHere(text, dim, braced, digits, body); }
    HeaderIff(text, dim, body);
  }

  lemma FramedHere(text: string, dim: int, front: string, dimText: string, inner: string)
    requires Trim(text) == front + ['/'] + dimText && '/' !in dimText
    requires ParseI32(Trim(dimText)) == Some(dim) && Trim(front) == ['{'] + inner + ['}']
    ensures Framed(text, dim, front, dimText, inner)
  {
  }

  lemma BodyReads(v: Sparsevec, f: Floats)
    requires Valid(v) && Faithful(f) && Representable(v, f)
    ensures var body := Body(Tokens(v, f));
            NoSpaces(body) && (body == [] <==> v.indices == []) && (body != [] ==> Split(body, ',') == Tokens(v, f))
  {
    var tokens := Tokens(v, f);
    forall k | 0 <= k < |tokens| ensures tokens[k] != [] && NoSpaces(tokens[k]) && ',' !in tokens[k] {
      TokenPlain(v, f, k);
    }
    hide Token, Faithful, Representable, IsSpace;
    if tokens != [] {
      JoinPlain(tokens);
      SplitJoin(tokens, ',');
    }
  }

  lemma SameVector(v: Sparsevec)
    requires Valid(v)
    ensures MakesVector(Literal(v.dim, EntriesOf(v))) && VectorOf(Literal(v.dim, EntriesOf(v))) == v
  {
    assert Indices(EntriesOf(v)) == v.indices;
    assert Values(FloatsOf(EntriesOf(v))) == v.values;
  }

  /** Whatever is printed reads back as the same vector, the empty one included. */
  lemma PrintedReadsBack(v: Sparsevec, f: Floats)
    requires Valid(v) && Faithful(f) && Representable(v, f)
    ensures ParseSparsevec(Render(v, f), f) == Ok(Literal(v.dim, EntriesOf(v)))
    ensures MakesVector(Literal(v.dim, EntriesOf(v))) && VectorOf(Literal(v.dim, EntriesOf(v))) == v
  {
    assert EntriesOf(v)[..|v.indices|] == EntriesOf(v);
    hide *;
    BodyReads(v, f);
    RenderReads(v, f);
    TokensRead(v, f, |v.indices|);
    SameVector(v);
    PrintedParts(v, f, Body(Tokens(v, f)));
  }

  lemma RenderReads(v: Sparsevec, f: Floats)
    requires Valid(v) && NoSpaces(Body(Tokens(v, f)))
    ensures Header(Render(v, f)) == Ok((v.dim, Body(Tokens(v, f))))
  {
    hide Header, Body, ShowNat;
    HeaderReads(Body(Tokens(v, f)), v.dim);
  }

  lemma PrintedParts(v: Sparsevec, f: Floats, body: string)
    requires Valid(v) && body == Body(Tokens(v, f)) && Header(Render(v, f)) == Ok((v.dim, body))
    requires (body == [] <==> v.indices == []) && (body != [] ==> Split(body, ',') == Tokens(v, f))
    requires ParseEntries(Tokens(v, f), f, |v.indices|) == Ok(EntriesOf(v))
    ensures ParseSparsevec(Render(v, f), f) == Ok(Literal(v.dim, EntriesOf(v)))
  {
    assert v.indices == [] ==> EntriesOf(v) == [];
    hide Header, Render, ParseEntries, Body, Split, Token, Valid;
  }

  method RoundTrip(v: Sparsevec, f: Floats) returns (r: InputResult)
    requires Valid(v) && Faithful(f) && Representable(v, f)
    ensures r == Vector(v)
  {
    var text := Output(v, f);
    PrintedReadsBack(v, f);
    r := Input(text, f);
  }
}
