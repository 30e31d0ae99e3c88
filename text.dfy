/**
 * The parts of Go's `strings` and `strconv` packages that the core relies on,
 * written out over `seq<char>`: TrimSpace, ToLower/ToUpper and EqualFold on
 * ASCII letters, Split on one separator character, and unsigned/signed
 * number parsing and lower-case hexadecimal formatting.
 */
module Text {
  import opened Types

  // ---------------------------------------------------------------------------
  // White space and TrimSpace

  /** unicode.IsSpace: the Unicode White_Space characters. */
  predicate IsSpace(c: char) {
    var n := c as int;
    n == 0x20 || 0x09 <= n <= 0x0D || n == 0x85 || n == 0xA0 || n == 0x1680
    || 0x2000 <= n <= 0x200A || n == 0x2028 || n == 0x2029 || n == 0x202F
    || n == 0x205F || n == 0x3000
  }

  predicate AllSpace(s: string) {
    forall i :: 0 <= i < |s| ==> IsSpace(s[i])
  }

  /** Neither end of `s` is white space (vacuous for the empty string). */
  predicate Trimmed(s: string) {
    s != [] ==> !IsSpace(s[0]) && !IsSpace(s[|s| - 1])
  }

  /** Drops the white-space prefix of `s`. */
  function TrimLeft(s: string): (r: string)
    ensures |r| <= |s| && r == s[|s| - |r|..]
    ensures AllSpace(s[..|s| - |r|])
    ensures r != [] ==> !IsSpace(r[0])
  {
    if s != [] && IsSpace(s[0]) then
      var r := TrimLeft(s[1..]);
      assert s[1..][|s| - 1 - |r|..] == s[|s| - |r|..];
      assert forall i :: 1 <= i < |s| - |r| ==> s[i] == s[1..][..|s| - 1 - |r|][i - 1];
      r
    else s
  }

  /** Drops the white-space suffix of `s`. */
  function TrimRight(s: string): (r: string)
    ensures |r| <= |s| && r == s[..|r|]
    ensures AllSpace(s[|r|..])
    ensures r != [] ==> !IsSpace(r[|r| - 1])
  {
    if s != [] && IsSpace(s[|s| - 1]) then TrimRight(s[..|s| - 1]) else s
  }

  /**
   * strings.TrimSpace: `s` is split as white space, then the result, then
   * white space, and the result starts and ends with a non-space character.
   */
  function TrimSpace(s: string): (r: string)
    ensures Trimmed(r)
    ensures |r| <= |s|
    ensures r == [] <==> AllSpace(s)
  {
    TrimSpaceEmpty(s);
    TrimRight(TrimLeft(s))
  }

  lemma {:induction false} TrimLeftEmpty(s: string)
    ensures TrimLeft(s) == [] <==> AllSpace(s)
  {
    if s != [] && IsSpace(s[0]) {
      TrimLeftEmpty(s[1..]);
      assert AllSpace(s) <==> AllSpace(s[1..]) by {
        assert forall i :: 1 <= i < |s| ==> s[i] == s[1..][i - 1];
      }
    }
  }

  lemma {:induction false} TrimRightEmpty(s: string)
    ensures TrimRight(s) == [] <==> AllSpace(s)
  {
    if s != [] && IsSpace(s[|s| - 1]) {
      TrimRightEmpty(s[..|s| - 1]);
      assert AllSpace(s) <==> AllSpace(s[..|s| - 1]) by {
        assert forall i :: 0 <= i < |s| - 1 ==> s[i] == s[..|s| - 1][i];
      }
    }
  }

  lemma TrimSpaceEmpty(s: string)
    ensures TrimRight(TrimLeft(s)) == [] <==> AllSpace(s)
  {
    TrimLeftEmpty(s);
    TrimRightEmpty(TrimLeft(s));
  }

  /** TrimSpace keeps a contiguous part of `s` and drops only white space around it. */
  lemma TrimSpaceSplit(s: string) returns (i: nat)
    ensures i + |TrimSpace(s)| <= |s| && s[i..i + |TrimSpace(s)|] == TrimSpace(s)
    ensures AllSpace(s[..i]) && AllSpace(s[i + |TrimSpace(s)|..])
  {
    var l := TrimLeft(s);
    i := |s| - |l|;
    assert l == s[i..];
    var r := TrimRight(l);
    assert r == TrimSpace(s);
    SliceOfSuffix(s, i, |r|);
  }

  lemma SliceOfSuffix(s: string, i: nat, n: nat)
    requires i + n <= |s|
    ensures s[i..][..n] == s[i..i + n] && s[i..][n..] == s[i + n..]
  {
  }

  lemma {:induction false} TrimLeftOfSpaces(a: string, t: string)
    requires AllSpace(a) && (t != [] ==> !IsSpace(t[0]))
    ensures TrimLeft(a + t) == t
  {
    if a != [] {
      assert (a + t)[1..] == a[1..] + t;
      TrimLeftOfSpaces(a[1..], t);
    } else {
      assert a + t == t;
    }
  }

  lemma {:induction false} TrimRightOfSpaces(t: string, b: string)
    requires AllSpace(b) && (t != [] ==> !IsSpace(t[|t| - 1]))
    ensures TrimRight(t + b) == t
  {
    if b != [] {
      assert (t + b)[..|t + b| - 1] == t + b[..|b| - 1];
      TrimRightOfSpaces(t, b[..|b| - 1]);
    } else {
      assert t + b == t;
    }
  }

  /** TrimSpace is characterised by the split: spaces, a trimmed core, spaces. */
  lemma TrimSpaceOf(a: string, t: string, b: string)
    requires AllSpace(a) && AllSpace(b) && Trimmed(t)
    ensures TrimSpace(a + t + b) == t
  {
    if t == [] {
      assert a + t + b == a + b;
      assert AllSpace(a + b) by {
        forall i | 0 <= i < |a + b| ensures IsSpace((a + b)[i]) {
          if i < |a| { assert (a + b)[i] == a[i]; } else { assert (a + b)[i] == b[i - |a|]; }
        }
      }
    } else {
      assert a + t + b == a + (t + b);
      assert (t + b)[0] == t[0];
      TrimLeftOfSpaces(a, t + b);
      TrimRightOfSpaces(t, b);
    }
  }

  /** A trimmed string is its own TrimSpace. */
  lemma TrimSpaceOfTrimmed(t: string)
    requires Trimmed(t)
    ensures TrimSpace(t) == t
  {
    assert TrimLeft(t) == t;
    assert TrimRight(t) == t;
  }

  /** Trimming twice is trimming once. */
  lemma TrimSpaceIdempotent(s: string)
    ensures TrimSpace(TrimSpace(s)) == TrimSpace(s)
  {
    TrimSpaceOfTrimmed(TrimSpace(s));
  }

  // ---------------------------------------------------------------------------
  // Case mapping (ASCII letters only)

  function LowerChar(c: char): char {
    if 'A' <= c <= 'Z' then (c as int + 32) as char else c
  }

  function UpperChar(c: char): char {
    if 'a' <= c <= 'z' then (c as int - 32) as char else c
  }

  /** strings.ToLower. */
  function Lower(s: string): string {
    seq(|s|, i requires 0 <= i < |s| => LowerChar(s[i]))
  }

  /** strings.ToUpper. */
  function Upper(s: string): string {
    seq(|s|, i requires 0 <= i < |s| => UpperChar(s[i]))
  }

  /** strings.EqualFold: equal under case folding. */
  predicate EqualFold(a: string, b: string) {
    Lower(a) == Lower(b)
  }

  lemma LowerIdempotent(s: string)
    ensures Lower(Lower(s)) == Lower(s)
  {
  }

  /** Upper-casing first does not change the case-folded form. */
  lemma LowerOfUpper(s: string)
    ensures Lower(Upper(s)) == Lower(s)
  {
  }

  lemma UpperIdempotent(s: string)
    ensures Upper(Upper(s)) == Upper(s)
  {
  }

  /** Case mapping preserves white space, so it commutes with TrimSpace. */
  lemma UpperTrimmed(s: string)
    requires Trimmed(s)
    ensures Trimmed(Upper(s)) && |Upper(s)| == |s|
  {
  }

  // ---------------------------------------------------------------------------
  // Split / Join on a single separator character

  /** strings.Join(pieces, string(sep)). */
  function Join(pieces: seq<string>, sep: char): string
  {
    if |pieces| == 0 then []
    else if |pieces| == 1 then pieces[0]
    else pieces[0] + [sep] + Join(pieces[1..], sep)
  }

  function Occurrences(s: string, c: char): nat {
    if s == [] then 0 else (if s[0] == c then 1 else 0) + Occurrences(s[1..], c)
  }

  /**
   * strings.Split(s, string(sep)): the pieces between separators, one more
   * piece than there are separators; the empty string gives one empty piece.
   */
  function Split(s: string, sep: char): (r: seq<string>)
    ensures |r| == Occurrences(s, sep) + 1
    ensures Join(r, sep) == s
    ensures forall i :: 0 <= i < |r| ==> sep !in r[i]
  {
    if s == [] then [[]]
    else
      var rest := Split(s[1..], sep);
      if s[0] == sep then
        assert ([[]] + rest)[1..] == rest;
        [[]] + rest
      else
        var r := [[s[0]] + rest[0]] + rest[1..];
        assert Join(r, sep) == [s[0]] + Join(rest, sep) by {
          if |rest| > 1 {
            assert r[1..] == rest[1..];
            assert [s[0]] + rest[0] + [sep] + Join(rest[1..], sep)
                == [s[0]] + (rest[0] + [sep] + Join(rest[1..], sep));
          }
        }
        assert s == [s[0]] + s[1..];
        assert forall i :: 1 <= i < |r| ==> r[i] == rest[i];
        r
  }

  /** Splitting undoes joining pieces that contain no separator. */
  lemma {:induction false} SplitOfJoin(pieces: seq<string>, sep: char)
    requires |pieces| >= 1
    requires forall i :: 0 <= i < |pieces| ==> sep !in pieces[i]
    ensures Split(Join(pieces, sep), sep) == pieces
    decreases |Join(pieces, sep)|
  {
    var p := pieces[0];
    if p == [] {
      if |pieces| > 1 {
        var tail := Join(pieces[1..], sep);
        assert Join(pieces, sep) == [sep] + tail;
        assert ([sep] + tail)[1..] == tail;
        SplitOfJoin(pieces[1..], sep);
        assert pieces == [[]] + pieces[1..];
      }
    } else {
      var rest := [p[1..]] + pieces[1..];
      assert rest[1..] == pieces[1..];
      assert forall i :: 1 <= i < |rest| ==> rest[i] == pieces[i];
      assert sep !in p[1..] by { assert forall k :: 0 <= k < |p[1..]| ==> p[1..][k] == p[k + 1]; }
      assert Join(pieces, sep) == [p[0]] + Join(rest, sep) by {
        if |pieces| > 1 {
          assert p == [p[0]] + p[1..];
          assert p + [sep] + Join(pieces[1..], sep) == [p[0]] + (p[1..] + [sep] + Join(pieces[1..], sep));
        } else {
          assert p == [p[0]] + p[1..];
        }
      }
      assert ([p[0]] + Join(rest, sep))[1..] == Join(rest, sep);
      SplitOfJoin(rest, sep);
      assert p[0] != sep by { assert p[0] == pieces[0][0]; }
      assert [p[0]] + p[1..] == p;
      assert pieces == [p] + pieces[1..];
    }
  }

  // ---------------------------------------------------------------------------
  // Numbers

  /** strconv's digit reading: 0-9, then a-z and A-Z as 10..35. */
  function DigitValue(c: char): (r: Option<nat>)
    ensures r.Some? ==> r.value < 36
  {
    if '0' <= c <= '9' then Some(c as int - '0' as int)
    else if 'a' <= c <= 'z' then Some(c as int - 'a' as int + 10)
    else if 'A' <= c <= 'Z' then Some(c as int - 'A' as int + 10)
    else None
  }

  /** Horner evaluation of `s` in `base`, continuing from `acc`; None on a bad digit. */
  function DigitsFrom(acc: nat, s: string, base: nat): Option<nat>
    decreases |s|
  {
    if s == [] then Some(acc)
    else match DigitValue(s[0])
      case Some(d) => if d < base then DigitsFrom(acc * base + d, s[1..], base) else None
      case None => None
  }

  /** The bit sizes the core passes to strconv. */
  datatype BitSize = Bits32 | Bits64

  function Limit(b: BitSize): nat {
    match b
    case Bits32 => TwoTo32
    case Bits64 => TwoTo64
  }

  /**
   * strconv.ParseUint(s, base, bits): a non-empty string of digits of `base`
   * whose value fits in `bits` bits. There is no sign and no underscore.
   */
  function ParseUint(s: string, base: nat, bits: BitSize): (r: Option<nat>)
    ensures r.Some? ==> r.value < Limit(bits) && s != []
    ensures r.Some? ==> forall i :: 0 <= i < |s| ==> DigitValue(s[i]).Some?
  {
    if s == [] then None
    else match DigitsFrom(0, s, base)
      case Some(v) =>
        DigitsAllValid(0, s, base);
        if v < Limit(bits) then Some(v) else None
      case None => None
  }

  lemma {:induction false} DigitsAllValid(acc: nat, s: string, base: nat)
    requires DigitsFrom(acc, s, base).Some?
    ensures forall i :: 0 <= i < |s| ==> DigitValue(s[i]).Some?
    decreases |s|
  {
    if s != [] {
      var d := DigitValue(s[0]).value;
      var rest := s[1..];
      DigitsAllValid(acc * base + d, rest, base);
      forall i | 0 <= i < |s|
        ensures DigitValue(s[i]).Some?
      {
        if i > 0 {
          assert s[i] == rest[i - 1];
        }
      }
    }
  }

  /** strconv.ParseInt(s, 10, 64): an optional sign, then decimal digits, within int64. */
  function ParseInt64(s: string): (r: Option<int>)
    ensures r.Some? ==> -TwoTo64 / 2 <= r.value < TwoTo64 / 2
  {
    if s == [] then None
    else
      var neg := s[0] == '-';
      var digits := if s[0] == '-' || s[0] == '+' then s[1..] else s;
      match ParseUint(digits, 10, Bits64)
      case None => None
      case Some(u) =>
        if !neg && u >= TwoTo64 / 2 then None
        else if neg && u > TwoTo64 / 2 then None
        else
          var v: int := if neg then -(u as int) else u;
          Some(v)
  }

  const HexDigits: string := "0123456789abcdef"

  /** fmt's %x of a non-negative number: lower-case hex without leading zeros. */
  function FormatHex(n: nat): (r: string)
    ensures |r| >= 1
    decreases n
  {
    if n < 16 then [HexDigits[n]] else FormatHex(n / 16) + [HexDigits[n % 16]]
  }

  /** k copies of the character c. */
  function Repeat(c: char, k: nat): (r: string)
    ensures |r| == k && forall i :: 0 <= i < k ==> r[i] == c
  {
    if k == 0 then [] else [c] + Repeat(c, k - 1)
  }

  /** Pads `s` on the left with `c` up to `width` characters (fmt's width flag). */
  function PadLeft(s: string, width: nat, c: char): (r: string)
    ensures |r| == if |s| >= width then |s| else width
    ensures r[|r| - |s|..] == s
    ensures forall i :: 0 <= i < |r| - |s| ==> r[i] == c
  {
    if |s| >= width then s else Repeat(c, width - |s|) + s
  }

  lemma {:induction false} DigitsFromAppend(acc: nat, a: string, b: string, base: nat)
    ensures DigitsFrom(acc, a + b, base)
         == match DigitsFrom(acc, a, base)
            case Some(v) => DigitsFrom(v, b, base)
            case None => None
    decreases |a|
  {
    if a != [] {
      assert (a + b)[0] == a[0] && (a + b)[1..] == a[1..] + b;
      match DigitValue(a[0])
      case Some(d) =>
        if d < base { DigitsFromAppend(acc * base + d, a[1..], b, base); }
      case None =>
    } else {
      assert a + b == b;
    }
  }

  /** Leading zeros do not change a value read in any base above 1. */
  lemma {:induction false} DigitsFromZeros(k: nat, s: string, base: nat)
    requires base >= 2
    ensures DigitsFrom(0, Repeat('0', k) + s, base) == DigitsFrom(0, s, base)
  {
    if k > 0 {
      assert Repeat('0', k) + s == ['0'] + (Repeat('0', k - 1) + s);
      assert (Repeat('0', k) + s)[1..] == Repeat('0', k - 1) + s;
      assert DigitValue('0') == Some(0);
      DigitsFromZeros(k - 1, s, base);
    } else {
      assert Repeat('0', k) + s == s;
    }
  }

  /** Reading back a formatted hex number gives the number. */
  lemma {:induction false} HexRoundTrip(n: nat)
    ensures DigitsFrom(0, FormatHex(n), 16) == Some(n)
    decreases n
  {
    if n < 16 {
      HexDigitValue(n);
      SingleDigit(0, HexDigits[n], 16);
    } else {
      HexRoundTrip(n / 16);
      DigitsFromAppend(0, FormatHex(n / 16), [HexDigits[n % 16]], 16);
      HexDigitValue(n % 16);
      SingleDigit(n / 16, HexDigits[n % 16], 16);
    }
  }

  /** Every hex digit reads back as its own value. */
  lemma HexDigitValue(k: nat)
    requires k < 16
    ensures DigitValue(HexDigits[k]) == Some(k)
  {
    assert HexDigits[k] as int == if k < 10 then '0' as int + k else 'a' as int + k - 10;
  }

  /** One more digit multiplies the accumulator by the base and adds it. */
  lemma SingleDigit(acc: nat, c: char, base: nat)
    requires DigitValue(c).Some? && DigitValue(c).value < base
    ensures DigitsFrom(acc, [c], base) == Some(acc * base + DigitValue(c).value)
  {
    assert [c][1..] == [];
  }

  /** A number below 16^k needs at most k hex digits. */
  lemma {:induction false} FormatHexWidth(n: nat, k: nat, bound: nat)
    requires k >= 1 && n < bound && bound == Pow16(k)
    ensures |FormatHex(n)| <= k
    decreases k
  {
    if n >= 16 {
      FormatHexWidth(n / 16, k - 1, Pow16(k - 1));
    }
  }

  function Pow16(k: nat): (r: nat)
    ensures r >= 1
  {
    if k == 0 then 1 else 16 * Pow16(k - 1)
  }
}
