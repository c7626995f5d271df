/**
 * Source IP addresses. The captured address tokens hold only digits and dots,
 * so of `std::net::IpAddr` only the IPv4 half can ever parse: four decimal
 * octets separated by dots, each of one to three digits, at most 255, and
 * without a leading zero.
 */
module Ipv4 {
  import opened Prelude
  import opened Text

  /** A value read from a string and the position just after it. */
  datatype Read<T> = Read(value: T, end: nat)

  datatype IpAddr = IpAddr(a: u8, b: u8, c: u8, d: u8) {
    function Octets(): seq<u8> {
      [a, b, c, d]
    }
  }

  /** Dotted-decimal rendering of a list of octets. */
  function Dotted(vs: seq<u8>): string
    requires |vs| >= 1
  {
    if |vs| == 1 then Decimal(vs[0]) else Decimal(vs[0]) + "." + Dotted(vs[1..])
  }

  /** `Display` for `IpAddr::V4`: `a.b.c.d`. */
  function Format(ip: IpAddr): (r: string)
    ensures r != [] && AllIn(r, DigitOrDot)
  {
    DottedChars(ip.Octets());
    Dotted(ip.Octets())
  }

  /**
   * One octet read from the front of `s`: the maximal digit run, rejected when
   * it is empty, longer than three digits, has a leading zero or exceeds 255.
   */
  function ReadOctet(s: string): (r: Option<Read<u8>>)
    ensures r.Some? ==> 0 < r.value.end <= |s|
  {
    var j := Span(s, 0, Digit);
    if j == 0 || j > 3 || (s[0] == '0' && j > 1) then None
    else
      var v := DigitsValue(s[..j]);
      if v > U8Max then None else Some(Read(v as u8, j))
  }

  /** `n` octets separated by dots that make up the whole of `s`. */
  function ReadGroups(s: string, n: nat): (r: Option<seq<u8>>)
    requires n >= 1
    ensures r.Some? ==> |r.value| == n
    decreases n
  {
    var o := ReadOctet(s);
    if o.None? then None
    else
      var j := o.value.end;
      if n == 1 then (if j == |s| then Some([o.value.value]) else None)
      else if j < |s| && s[j] == '.' then
        var rest := ReadGroups(s[j + 1..], n - 1);
        if rest.None? then None else Some([o.value.value] + rest.value)
      else None
  }

  /** `str::parse::<Ipv4Addr>()`: exactly four groups and nothing after them. */
  function Parse(s: string): Option<IpAddr> {
    var r := ReadGroups(s, 4);
    if r.Some? then Some(IpAddr(r.value[0], r.value[1], r.value[2], r.value[3])) else None
  }

  lemma {:induction false} ReadOctetDecimal(s: string, v: u8)
    requires |Decimal(v)| <= |s| && s[..|Decimal(v)|] == Decimal(v)
    requires |Decimal(v)| < |s| ==> !IsDigit(s[|Decimal(v)|])
    ensures ReadOctet(s) == Some(Read(v, |Decimal(v)|))
  {
    var x := Decimal(v);
    forall m | 0 <= m < |x| ensures InClass(s[m], Digit) {
      assert s[m] == x[m];
    }
    SpanUnique(s, 0, |x|, Digit);
    ShortDecimal(v);
    ValueOfDecimal(v);
    assert s[0] == x[0];
  }

  /** Reading `Decimal(v) + "." + rest` takes `v` and continues with `rest`. */
  lemma {:induction false} ReadGroupsCons(v: u8, rest: string, n: nat, vs: seq<u8>)
    requires n >= 2
    requires ReadGroups(rest, n - 1) == Some(vs)
    ensures ReadGroups(Decimal(v) + "." + rest, n) == Some([v] + vs)
  {
    var x := Decimal(v);
    var s := x + "." + rest;
    assert s[..|x|] == x && s[|x|] == '.';
    ReadOctetDecimal(s, v);
    assert s[|x| + 1..] == rest;
  }

  /** A lone rendered octet reads back as that octet. */
  lemma {:induction false} ReadGroupsSingle(v: u8)
    ensures ReadGroups(Decimal(v), 1) == Some([v])
  {
    var x := Decimal(v);
    assert x[..|x|] == x;
    ReadOctetDecimal(x, v);
  }

  /** Rendering a longer list puts the first octet and a dot in front of the rest. */
  lemma {:induction false} DottedCons(v: u8, vs: seq<u8>)
    requires |vs| >= 1
    ensures Dotted([v] + vs) == Decimal(v) + "." + Dotted(vs)
  {
    assert ([v] + vs)[1..] == vs;
  }

  /** Rendering and reading back `|vs|` groups gives back the octets. */
  lemma {:induction false} ReadGroupsDotted(vs: seq<u8>)
    requires 1 <= |vs|
    ensures ReadGroups(Dotted(vs), |vs|) == Some(vs)
    decreases |vs|
  {
    if |vs| == 1 {
      ReadGroupsSingle(vs[0]);
      assert [vs[0]] == vs;
    } else {
      var tail := vs[1..];
      assert [vs[0]] + tail == vs;
      ReadGroupsDotted(tail);
      ReadGroupsCons(vs[0], Dotted(tail), |vs|, tail);
      DottedCons(vs[0], tail);
    }
  }

  /** The digits an octet was read from are that octet's canonical rendering. */
  lemma {:induction false} OctetSpell(s: string)
    requires ReadOctet(s).Some?
    ensures s[..ReadOctet(s).value.end] == Decimal(ReadOctet(s).value.value)
  {
    var j := ReadOctet(s).value.end;
    var digits := s[..j];
    assert IsCanonicalDecimal(digits) by {
      assert digits[0] == s[0];
    }
    DecimalOfValue(digits);
  }

  /** A successful read of two or more groups is an octet, a dot and the remaining groups. */
  lemma {:induction false} ReadGroupsStep(s: string, n: nat)
    requires n >= 2 && ReadGroups(s, n).Some?
    ensures ReadOctet(s).Some? && ReadOctet(s).value.end < |s| && s[ReadOctet(s).value.end] == '.'
    ensures ReadGroups(s[ReadOctet(s).value.end + 1..], n - 1).Some?
    ensures ReadGroups(s, n).value
      == [ReadOctet(s).value.value] + ReadGroups(s[ReadOctet(s).value.end + 1..], n - 1).value
  {
  }

  /** A lone group that reads back is the rendering of its octet. */
  lemma {:induction false} ReadGroupSpell(s: string)
    requires ReadGroups(s, 1).Some?
    ensures s == Dotted(ReadGroups(s, 1).value)
  {
    OctetSpell(s);
    assert s == s[..ReadOctet(s).value.end];
  }

  /** An octet's rendering, a dot and a rendered rest make up the rendering of the longer list. */
  lemma {:induction false} SpellCons(s: string, j: nat, v: u8, vs: seq<u8>)
    requires j < |s| && s[..j] == Decimal(v) && s[j] == '.'
    requires |vs| >= 1 && s[j + 1..] == Dotted(vs)
    ensures s == Dotted([v] + vs)
  {
    DottedCons(v, vs);
    assert s == s[..j] + [s[j]] + s[j + 1..];
  }

  /** If the groups after the first octet spell out their octets, so do all `n` groups. */
  lemma {:induction false} SpellStep(s: string, n: nat)
    requires n >= 2 && ReadGroups(s, n).Some?
    requires ReadOctet(s).Some? && ReadOctet(s).value.end < |s|
    requires ReadGroups(s[ReadOctet(s).value.end + 1..], n - 1).Some?
    requires s[ReadOctet(s).value.end + 1..] == Dotted(ReadGroups(s[ReadOctet(s).value.end + 1..], n - 1).value)
    ensures s == Dotted(ReadGroups(s, n).value)
  {
    ReadGroupsStep(s, n);
    OctetSpell(s);
    var o := ReadOctet(s).value;
    SpellCons(s, o.end, o.value, ReadGroups(s[o.end + 1..], n - 1).value);
  }

  /** Whatever reads as `n` groups is the rendering of the octets read. */
  lemma {:induction false} ReadGroupsSpell(s: string, n: nat)
    requires n >= 1 && ReadGroups(s, n).Some?
    ensures s == Dotted(ReadGroups(s, n).value)
    decreases n
  {
    if n == 1 {
      ReadGroupSpell(s);
    } else {
      ReadGroupsStep(s, n);
      ReadGroupsSpell(s[ReadOctet(s).value.end + 1..], n - 1);
      SpellStep(s, n);
    }
  }

  /** Parsing accepts exactly the canonical rendering of each address: `Parse(s) == Some(ip)` iff `s == Format(ip)`. */
  lemma {:induction false} ParseIffFormat(s: string, ip: IpAddr)
    ensures Parse(s) == Some(ip) <==> s == Format(ip)
  {
    if s == Format(ip) {
      ReadGroupsDotted(ip.Octets());
    }
    if Parse(s) == Some(ip) {
      ReadGroupsSpell(s, 4);
      assert ReadGroups(s, 4).value == ip.Octets();
    }
  }

  /** A rendered address holds nothing but digits and dots. */
  lemma {:induction false} DottedChars(vs: seq<u8>)
    requires |vs| >= 1
    ensures AllIn(Dotted(vs), DigitOrDot)
    decreases |vs|
  {
    if |vs| > 1 {
      DottedChars(vs[1..]);
    }
  }
}
