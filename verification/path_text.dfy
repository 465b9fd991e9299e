/** The textual form of path identifiers: a path is written as its elements in decimal,
    separated by dots, and the empty string is the root.  Parsing splits on '.', parses every
    component as an unsigned 64-bit integer, fails with the first component that does not
    parse, and otherwise encodes the components. */
module PathText {
  import opened Wrappers
  import opened PathIds

  /** The largest value of an unsigned 64-bit integer. */
  const U64_MAX: nat := 0xFFFF_FFFF_FFFF_FFFF

  /** Why a component is not an unsigned 64-bit integer. */
  datatype IntErrorKind = Empty | InvalidDigit | PosOverflow

  /** Concatenates `parts` with `sep` between neighbours. */
  function Join(parts: seq<string>, sep: char): string
    decreases |parts|
  {
    if parts == [] then []
    else if |parts| == 1 then parts[0]
    else parts[0] + [sep] + Join(parts[1..], sep)
  }

  /** The pieces of `s` between occurrences of `sep`, as splitting on a character does:
      there is always at least one piece (the empty string gives one empty piece), no piece
      holds the separator, and joining the pieces back gives `s`. */
  function Split(s: string, sep: char): (parts: seq<string>)
    ensures |parts| >= 1
    ensures forall i :: 0 <= i < |parts| ==> sep !in parts[i]
    ensures Join(parts, sep) == s
    decreases |s|
  {
    if s == [] then [[]]
    else
      var rest := Split(s[1..], sep);
      if s[0] == sep then
        assert s == [sep] + Join(rest, sep);
        [[]] + rest
      else
        var parts := [[s[0]] + rest[0]] + rest[1..];
        assert parts[1..] == rest[1..];
        assert s == [s[0]] + Join(rest, sep);
        parts
  }

  /** Splitting a string that starts with a separator-free piece `p`: `p` is glued to the
      front of the first piece of the rest. */
  lemma {:induction false} SplitPrefix(p: string, t: string, sep: char)
    requires sep !in p
    ensures Split(p + t, sep) == [p + Split(t, sep)[0]] + Split(t, sep)[1..]
    decreases |p|
  {
    if p == [] {
      var st := Split(t, sep);
      assert p + t == t && p + st[0] == st[0];
      assert [st[0]] + st[1..] == st;
    } else {
      assert (p + t)[0] == p[0];
      assert (p + t)[1..] == p[1..] + t;
      SplitPrefix(p[1..], t, sep);
      assert [p[0]] + (p[1..] + Split(t, sep)[0]) == p + Split(t, sep)[0];
    }
  }

  /** Splitting undoes joining, for a non-empty list of separator-free pieces. */
  lemma {:induction false} SplitJoin(parts: seq<string>, sep: char)
    requires |parts| >= 1
    requires forall i :: 0 <= i < |parts| ==> sep !in parts[i]
    ensures Split(Join(parts, sep), sep) == parts
    decreases |parts|
  {
    var p := parts[0];
    if |parts| == 1 {
      SplitPrefix(p, [], sep);
      assert p + [] == p;
    } else {
      var rest := parts[1..];
      SplitJoin(rest, sep);
      var t := [sep] + Join(rest, sep);
      assert Join(parts, sep) == p + t;
      assert t[0] == sep && t[1..] == Join(rest, sep);
      assert Split(t, sep) == [[]] + rest;
      SplitPrefix(p, t, sep);
      assert p + [] == p;
      assert parts == [p] + rest;
    }
  }

  predicate IsDigit(ch: char) {
    '0' <= ch <= '9'
  }

  predicate AllDigits(s: string) {
    forall i :: 0 <= i < |s| ==> IsDigit(s[i])
  }

  function DigitValue(ch: char): nat
    requires IsDigit(ch)
  {
    ch as int - '0' as int
  }

  /** The value of the decimal digits `s`, most significant first, read after the digits
      already worth `acc`. */
  function Horner(acc: nat, s: string): nat
    requires AllDigits(s)
    decreases |s|
  {
    if s == [] then acc else Horner(acc * 10 + DigitValue(s[0]), s[1..])
  }

  /** Reading more digits never makes a value smaller. */
  lemma {:induction false} HornerAtLeast(acc: nat, s: string)
    requires AllDigits(s)
    ensures acc <= Horner(acc, s)
    decreases |s|
  {
    if s != [] {
      HornerAtLeast(acc * 10 + DigitValue(s[0]), s[1..]);
    }
  }

  /** Reading one more digit at the end multiplies by ten and adds it. */
  lemma {:induction false} HornerSnoc(acc: nat, s: string, ch: char)
    requires AllDigits(s) && IsDigit(ch)
    ensures AllDigits(s + [ch])
    ensures Horner(acc, s + [ch]) == Horner(acc, s) * 10 + DigitValue(ch)
    decreases |s|
  {
    assert AllDigits(s + [ch]) by {
      forall i | 0 <= i < |s + [ch]| ensures IsDigit((s + [ch])[i]) {
        if i < |s| { assert (s + [ch])[i] == s[i]; }
      }
    }
    if s != [] {
      assert (s + [ch])[1..] == s[1..] + [ch];
      HornerSnoc(acc * 10 + DigitValue(s[0]), s[1..], ch);
    }
  }

  /** The digit loop of the unsigned integer parser: every character must be a digit, and the
      running value is checked against the 64-bit range after each digit.  It accepts exactly
      the all-digit strings whose value fits, and then returns that value. */
  function ScanDigits(s: string, acc: nat): (r: Result<nat, IntErrorKind>)
    requires acc <= U64_MAX
    ensures r.Ok? <==> AllDigits(s) && Horner(acc, s) <= U64_MAX
    ensures r.Ok? ==> r.value == Horner(acc, s)
    ensures r.Err? ==> r.error != Empty
    decreases |s|
  {
    if s == [] then Ok(acc)
    else if !IsDigit(s[0]) then Err(InvalidDigit)
    else
      var n := acc * 10 + DigitValue(s[0]);
      assert AllDigits(s) ==> AllDigits(s[1..]) && Horner(acc, s) == Horner(n, s[1..]);
      if n > U64_MAX then
        (if AllDigits(s) then HornerAtLeast(n, s[1..]); Err(PosOverflow) else Err(PosOverflow))
      else ScanDigits(s[1..], n)
  }

  /** The digits of an unsigned integer literal: an optional leading '+' is not part of them. */
  function Unsigned(s: string): string {
    if |s| > 0 && s[0] == '+' then s[1..] else s
  }

  /** Parsing an unsigned 64-bit integer: the empty string is `Empty`, a lone sign is an
      invalid digit, one leading '+' is allowed, and what follows must be digits whose value
      fits in 64 bits. */
  function ParseU64(s: string): (r: Result<nat, IntErrorKind>)
    ensures r == Err(Empty) <==> s == []
    ensures r.Ok? <==>
      var ds := Unsigned(s); ds != [] && AllDigits(ds) && Horner(0, ds) <= U64_MAX
    ensures r.Ok? ==> r.value == Horner(0, Unsigned(s)) <= U64_MAX
  {
    if s == [] then Err(Empty)
    else if s == ['+'] || s == ['-'] then Err(InvalidDigit)
    else if s[0] == '+' then ScanDigits(s[1..], 0)
    else ScanDigits(s, 0)
  }

  /** Component `i` is the first one that does not parse, and it fails with `e`. */
  predicate FailsFirstAt(parts: seq<string>, i: nat, e: IntErrorKind) {
    i < |parts| && ParseU64(parts[i]) == Err(e)
    && forall j :: 0 <= j < i ==> ParseU64(parts[j]).Ok?
  }

  /** Parses every component, in order; the first component that fails decides the error. */
  function ParseComponents(parts: seq<string>): (r: Result<seq<nat>, IntErrorKind>)
    ensures r.Ok? <==> forall i :: 0 <= i < |parts| ==> ParseU64(parts[i]).Ok?
    ensures r.Ok? ==> |r.value| == |parts|
    ensures r.Ok? ==> forall i :: 0 <= i < |parts| ==> r.value[i] == ParseU64(parts[i]).value
    ensures r.Err? ==> exists i :: FailsFirstAt(parts, i, r.error)
    decreases |parts|
  {
    if parts == [] then Ok([])
    else
      match ParseU64(parts[0])
      case Err(e) =>
        assert FailsFirstAt(parts, 0, e);
        Err(e)
      case Ok(x) =>
        match ParseComponents(parts[1..])
        case Err(e) =>
          var i: nat :| FailsFirstAt(parts[1..], i, e);
          assert FailsFirstAt(parts, i + 1, e);
          Err(e)
        case Ok(xs) => Ok([x] + xs)
  }

  /** Parsing a path identifier.  The empty string is the root.  Otherwise the identifier is
      defined exactly when every dot-separated component parses, its path is then the list of
      component values, and an error is the error of the first component that fails. */
  function FromStr(s: string): (r: Result<PathIdentifier, IntErrorKind>)
    ensures s == [] ==> r == Ok(Root())
    ensures r.Ok? ==> IsEncoding(r.value)
    ensures s != [] ==> (r.Ok? <==> forall i :: 0 <= i < |Split(s, '.')| ==> ParseU64(Split(s, '.')[i]).Ok?)
    ensures s != [] && r.Ok? ==> |Decode(r.value)| == |Split(s, '.')|
    ensures s != [] && r.Ok? ==>
      forall i :: 0 <= i < |Split(s, '.')| ==> Decode(r.value)[i] == ParseU64(Split(s, '.')[i]).value
    ensures s != [] && r.Err? ==> exists i :: FailsFirstAt(Split(s, '.'), i, r.error)
  {
    if s == [] then
      assert Encode([]) == Root();
      Ok(Root())
    else
      var parts := Split(s, '.');
      var parsed := ParseComponents(parts);
      match parsed
      case Err(e) =>
        assert !forall i :: 0 <= i < |parts| ==> ParseU64(parts[i]).Ok?;
        Err(e)
      case Ok(values) =>
        DecodeEncode(values);
        Ok(Encode(values))
  }

  function DigitChar(n: nat): char
    requires n < 10
  {
    ('0' as int + n) as char
  }

  /** The decimal digits of `n`, most significant first, without leading zeros. */
  function Decimal(n: nat): (s: string)
    ensures s != [] && AllDigits(s) && '.' !in s && Horner(0, s) == n
  {
    var init := if n < 10 then [] else Decimal(n / 10);
    var s := init + [DigitChar(n % 10)];
    assert forall i :: 0 <= i < |init| ==> s[i] == init[i];
    HornerSnoc(0, init, DigitChar(n % 10));
    s
  }

  /** The dotted decimal text of a path. */
  function Format(v: seq<nat>): string {
    Join(FormatParts(v), '.')
  }

  function FormatParts(v: seq<nat>): (parts: seq<string>)
    ensures |parts| == |v|
    ensures forall i :: 0 <= i < |v| ==> parts[i] == Decimal(v[i])
  {
    if v == [] then [] else [Decimal(v[0])] + FormatParts(v[1..])
  }

  /** The decimal text of every value that fits in 64 bits parses back to that value. */
  lemma ParseDecimal(n: nat)
    requires n <= U64_MAX
    ensures ParseU64(Decimal(n)) == Ok(n)
  {
    var d := Decimal(n);
    assert d[0] != '+';
  }

  /** Joining non-empty numerals that fit in 64 bits with dots gives text that parses to the
      encoding of their values. */
  lemma FromStrJoin(parts: seq<string>, v: seq<nat>)
    requires |parts| == |v| >= 1
    requires forall i :: 0 <= i < |parts| ==> '.' !in parts[i] && ParseU64(parts[i]) == Ok(v[i])
    ensures Join(parts, '.') != []
    ensures FromStr(Join(parts, '.')) == Ok(Encode(v))
  {
    if |parts| > 1 {
      assert Join(parts, '.') == parts[0] + ['.'] + Join(parts[1..], '.');
    }
    SplitJoin(parts, '.');
    var r := ParseComponents(parts);
    assert r.Ok?;
    assert r.value == v;
  }

  /** Every path whose elements fit in 64 bits parses back from its dotted decimal text to
      its encoding; in particular the empty path is written as the empty string. */
  lemma FromStrFormat(v: seq<nat>)
    requires forall i :: 0 <= i < |v| ==> v[i] <= U64_MAX
    ensures FromStr(Format(v)) == Ok(Encode(v))
  {
    if v == [] {
      assert Format(v) == [];
    } else {
      var parts := FormatParts(v);
      forall i | 0 <= i < |parts|
        ensures ParseU64(parts[i]) == Ok(v[i])
      {
        ParseDecimal(v[i]);
      }
      FromStrJoin(parts, v);
    }
  }
}
