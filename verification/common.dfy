/** Shared vocabulary of the indexer model: optional values, results that carry
    the message of a thrown error, sequence search, and the JavaScript string
    conversions the indexer relies on (`String(n)`, `BigInt(s)`, `padStart`,
    `split`/`join`). */
module Common {

  /** A value that may be absent (`undefined`/`null` in the source). */
  datatype Option<+T> = None | Some(value: T) {
    function GetOr(default: T): T {
      match this
      case Some(v) => v
      case None => default
    }
  }

  /** The outcome of an operation that may throw; `Err` carries the message. */
  datatype Result<+T> = Ok(value: T) | Err(error: string) {
    predicate IsFailure() {
      Err?
    }

    function PropagateFailure<U>(): Result<U>
      requires Err?
    {
      Err(error)
    }

    function Extract(): T
      requires Ok?
    {
      value
    }
  }

  /** A block header as the processor receives it; `timestamp` is in milliseconds. */
  datatype Header = Header(height: nat, id: string, timestamp: int)

  ghost predicate NoDuplicates<T>(s: seq<T>) {
    forall i, j :: 0 <= i < j < |s| ==> s[i] != s[j]
  }

  /** `Array.prototype.indexOf`: the first position of `x`, or -1. */
  function IndexOf<T(==)>(s: seq<T>, x: T): (r: int)
    ensures -1 <= r < |s|
    ensures r == -1 <==> x !in s
    ensures 0 <= r ==> s[r] == x && x !in s[..r]
  {
    if |s| == 0 then -1
    else if s[0] == x then 0
    else
      var k := IndexOf(s[1..], x);
      if k == -1 then -1
      else
        assert s[..k + 1] == [s[0]] + s[1..][..k];
        k + 1
  }

  lemma IndexOfDistinct<T>(s: seq<T>, k: nat)
    requires NoDuplicates(s)
    requires k < |s|
    ensures IndexOf(s, s[k]) == k
  {
  }

  function Pow10(n: nat): (r: nat)
    ensures r >= 1
  {
    if n == 0 then 1 else 10 * Pow10(n - 1)
  }

  /** A raw integer amount divided by `10^decimals`, as `BigNumber.div` does
      (rounding is not modelled). */
  function Scaled(raw: int, decimals: nat): real {
    raw as real / Pow10(decimals) as real
  }

  function Reverse<T>(s: seq<T>): (r: seq<T>)
    ensures |r| == |s|
    ensures forall i :: 0 <= i < |s| ==> r[i] == s[|s| - 1 - i]
  {
    if |s| == 0 then [] else Reverse(s[1..]) + [s[0]]
  }

  // ---------------------------------------------------------------------
  // Decimal text
  // ---------------------------------------------------------------------

  predicate IsDigit(c: char) {
    '0' as int <= c as int <= '9' as int
  }

  predicate AllDigits(s: string) {
    forall i :: 0 <= i < |s| ==> IsDigit(s[i])
  }

  function DigitChar(d: nat): (c: char)
    requires d < 10
    ensures IsDigit(c)
    ensures c as int - '0' as int == d
  {
    ['0', '1', '2', '3', '4', '5', '6', '7', '8', '9'][d]
  }

  /** The value of a string of decimal digits (most significant first). */
  function DigitsValue(s: string): nat
    requires AllDigits(s)
  {
    if |s| == 0 then 0
    else
      var d: int := s[|s| - 1] as int - '0' as int;
      DigitsValue(s[..|s| - 1]) * 10 + d
  }

  /** `String(n)` / `n.toString()` for a non-negative integer. */
  function NatToString(n: nat): (s: string)
    ensures 1 <= |s|
    ensures AllDigits(s)
  {
    if n < 10 then [DigitChar(n)] else NatToString(n / 10) + [DigitChar(n % 10)]
  }

  /** `x.toString()` for an integer of either sign. */
  function IntToString(x: int): (s: string)
    ensures 1 <= |s|
    ensures x < 0 <==> s[0] == '-'
  {
    if x < 0 then "-" + NatToString(-x) else NatToString(x)
  }

  /** `BigInt(s)` for the decimal forms the indexer produces: an optional
      leading minus sign followed by digits; the empty string is 0. Any other
      text makes `BigInt` throw, which is `None` here. */
  function ParseInt(s: string): Option<int> {
    if |s| == 0 then Some(0)
    else if s[0] == '-' then
      if 2 <= |s| && AllDigits(s[1..]) then
        var v: int := -(DigitsValue(s[1..]) as int);
        Some(v)
      else None
    else if AllDigits(s) then
      var v: int := DigitsValue(s);
      Some(v)
    else None
  }

  lemma {:induction false} NatToStringValue(n: nat)
    ensures DigitsValue(NatToString(n)) == n
  {
    if n >= 10 {
      var s := NatToString(n);
      var p := NatToString(n / 10);
      assert s == p + [DigitChar(n % 10)];
      assert s[..|s| - 1] == p;
      NatToStringValue(n / 10);
    }
  }

  /** Reading back what `toString` wrote gives the number again. */
  lemma {:induction false} ParseIntOfIntToString(x: int)
    ensures ParseInt(IntToString(x)) == Some(x)
  {
    if x < 0 {
      var m: nat := -x;
      ParseSignedText(true, m);
      assert IntToString(x) == SignedText(true, m);
    } else {
      ParseIntOfNatToString(x);
    }
  }

  /** Reading back a non-negative number's text gives the number. */
  lemma {:induction false} ParseIntOfNatToString(n: nat)
    ensures ParseInt(NatToString(n)) == Some(n)
  {
    NatToStringValue(n);
    ParsePlainDigits(NatToString(n));
  }

  /** A magnitude with a textual minus sign in front when `negative` holds,
      the way the Transfer handler writes `supply`. */
  function SignedText(negative: bool, magnitude: nat): (s: string)
    ensures 1 <= |s|
  {
    (if negative then "-" else "") + NatToString(magnitude)
  }

  lemma {:induction false} ParseSignedText(negative: bool, magnitude: nat)
    ensures ParseInt(SignedText(negative, magnitude))
         == Some(if negative then -(magnitude as int) else magnitude as int)
  {
    var digits := NatToString(magnitude);
    NatToStringValue(magnitude);
    if negative {
      assert SignedText(negative, magnitude) == "-" + digits;
      ParseNegativeDigits(digits);
    } else {
      assert SignedText(negative, magnitude) == digits;
      ParsePlainDigits(digits);
    }
  }

  /** `-` followed by digits reads as the negated digit value. */
  lemma {:induction false} ParseNegativeDigits(d: string)
    requires 1 <= |d| && AllDigits(d)
    ensures ParseInt("-" + d) == Some(-(DigitsValue(d) as int))
  {
    var s := "-" + d;
    assert s[0] == '-';
    assert s[1..] == d;
  }

  /** A non-empty digit string reads as its digit value. */
  lemma {:induction false} ParsePlainDigits(d: string)
    requires 1 <= |d| && AllDigits(d)
    ensures ParseInt(d) == Some(DigitsValue(d) as int)
  {
    assert IsDigit(d[0]);
    assert d[0] != '-';
  }

  /** `String.prototype.padStart(width, fill)` with a one-character fill. */
  function PadStart(s: string, width: nat, fill: char): (r: string)
    ensures |r| == if |s| >= width then |s| else width
    ensures r[|r| - |s|..] == s
    ensures forall i :: 0 <= i < |r| - |s| ==> r[i] == fill
  {
    if |s| >= width then s else seq(width - |s|, _ => fill) + s
  }

  /** A number below `10^k` takes at most `k` digits. */
  lemma {:induction false} NatToStringLength(n: nat, k: nat)
    requires 1 <= k && n < Pow10(k)
    ensures |NatToString(n)| <= k
    decreases n
  {
    if n >= 10 {
      NatToStringLength(n / 10, k - 1);
    }
  }

  /** A run of zeros reads as 0. */
  lemma {:induction false} ZerosValue(z: string)
    requires forall i :: 0 <= i < |z| ==> z[i] == '0'
    ensures AllDigits(z) && DigitsValue(z) == 0
    decreases |z|
  {
    if |z| > 0 {
      ZerosValue(z[..|z| - 1]);
    }
  }

  /** Leading zeros do not change the value of a digit string. */
  lemma {:induction false} LeadingZerosValue(z: string, s: string)
    requires forall i :: 0 <= i < |z| ==> z[i] == '0'
    requires AllDigits(s)
    ensures AllDigits(z + s) && DigitsValue(z + s) == DigitsValue(s)
    decreases |s|
  {
    var zs := z + s;
    assert AllDigits(zs) by {
      forall i | 0 <= i < |zs| ensures IsDigit(zs[i]) {
        if i < |z| { assert zs[i] == z[i]; } else { assert zs[i] == s[i - |z|]; }
      }
    }
    if |s| == 0 {
      assert zs == z;
      ZerosValue(z);
    } else {
      var s' := s[..|s| - 1];
      assert zs[..|zs| - 1] == z + s';
      assert zs[|zs| - 1] == s[|s| - 1];
      LeadingZerosValue(z, s');
    }
  }

  /** Padding a number's text with zeros keeps it readable as that number. */
  lemma PadStartValue(n: nat, width: nat)
    ensures AllDigits(PadStart(NatToString(n), width, '0'))
    ensures DigitsValue(PadStart(NatToString(n), width, '0')) == n
  {
    var s := NatToString(n);
    NatToStringValue(n);
    if |s| < width {
      LeadingZerosValue(seq(width - |s|, _ => '0'), s);
    }
  }

  /** The id the aggregators give a per-block row: `${height}-${key}`. */
  function BlockKeyId(height: nat, key: string): (id: string)
    ensures |id| == |NatToString(height)| + 1 + |key|
  {
    NatToString(height) + "-" + key
  }

  /** Two rows of the same block get the same id only for the same key. */
  lemma BlockKeyIdInjective(height: nat, a: string, b: string)
    requires BlockKeyId(height, a) == BlockKeyId(height, b)
    ensures a == b
  {
    var n := |NatToString(height)| + 1;
    assert a == BlockKeyId(height, a)[n..];
    assert b == BlockKeyId(height, b)[n..];
  }

  // ---------------------------------------------------------------------
  // split / join with a one-character separator
  // ---------------------------------------------------------------------

  /** `s.split(c)`: the pieces between occurrences of `c`; never empty. */
  function Split(s: string, c: char): (parts: seq<string>)
    ensures 1 <= |parts|
    ensures forall k :: 0 <= k < |parts| ==> c !in parts[k]
    decreases |s|
  {
    var i := IndexOf(s, c);
    if i < 0 then [s] else [s[..i]] + Split(s[i + 1..], c)
  }

  /** `parts.join(c)`. */
  function Join(parts: seq<string>, c: char): string {
    if |parts| == 0 then ""
    else if |parts| == 1 then parts[0]
    else parts[0] + [c] + Join(parts[1..], c)
  }

  /** In `p + [c] + t` with no `c` in `p`, the first `c` is the one after `p`. */
  lemma IndexOfAfterPrefix(p: string, c: char, t: string)
    requires c !in p
    ensures IndexOf(p + [c] + t, c) == |p|
  {
    var s := p + [c] + t;
    assert s[|p|] == c;
    assert s[..|p|] == p;
  }

  lemma {:induction false} JoinSplit(s: string, c: char)
    ensures Join(Split(s, c), c) == s
    decreases |s|
  {
    var i := IndexOf(s, c);
    if i >= 0 {
      var rest := Split(s[i + 1..], c);
      JoinSplit(s[i + 1..], c);
      SplitAtFirst(s, c, i);
      JoinCons(s[..i], rest, c);
      CutAt(s, i);
    }
  }

  /** Unfolds `Split` once at the first separator. */
  lemma {:induction false} SplitAtFirst(s: string, c: char, i: int)
    requires i == IndexOf(s, c) && 0 <= i
    ensures s[i] == c
    ensures Split(s, c) == [s[..i]] + Split(s[i + 1..], c)
  {
  }

  /** Joining a head in front of non-empty pieces puts one separator between. */
  lemma {:induction false} JoinCons(x: string, rest: seq<string>, c: char)
    requires 1 <= |rest|
    ensures Join([x] + rest, c) == x + [c] + Join(rest, c)
  {
    assert ([x] + rest)[1..] == rest;
  }

  /** A string is the part before index `i`, the character there and the rest. */
  lemma {:induction false} CutAt(s: string, i: nat)
    requires i < |s|
    ensures s == s[..i] + [s[i]] + s[i + 1..]
  {
  }

  lemma {:induction false} SplitJoin(parts: seq<string>, c: char)
    requires 1 <= |parts|
    requires forall k :: 0 <= k < |parts| ==> c !in parts[k]
    ensures Split(Join(parts, c), c) == parts
  {
    if |parts| == 1 {
      assert IndexOf(parts[0], c) == -1;
    } else {
      var tail := Join(parts[1..], c);
      var s := parts[0] + [c] + tail;
      assert Join(parts, c) == s;
      IndexOfAfterPrefix(parts[0], c, tail);
      assert s[..|parts[0]|] == parts[0];
      assert s[|parts[0]| + 1..] == tail;
      SplitJoin(parts[1..], c);
      assert Split(s, c) == [parts[0]] + parts[1..];
    }
  }
}
