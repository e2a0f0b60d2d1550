/**
 * The few JavaScript value semantics the handlers depend on: truthiness (`x || ''`,
 * `Boolean(x)`, `if (!x)`), 32-bit integer conversion for `<<`, and `Array.prototype.slice`
 * with a single, possibly negative, start index.
 */
module Js {

  /** A JSON/JS value as it arrives in an event payload or a request body. Numbers are integers. */
  datatype Value = Undefined | Null | Bool(b: bool) | Num(n: int) | Str(s: string) | Obj

  /** `Boolean(v)`. */
  predicate Truthy(v: Value) {
    match v
    case Undefined => false
    case Null => false
    case Bool(b) => b
    case Num(n) => n != 0
    case Str(s) => s != ""
    case Obj => true
  }

  /** The decimal digits of a natural number, most significant first. */
  function DecimalDigits(n: nat): (r: string)
    ensures |r| >= 1
    ensures forall i :: 0 <= i < |r| ==> '0' <= r[i] <= '9'
  {
    var last := ['0' + ((n % 10) as char)];
    if n < 10 then last else DecimalDigits(n / 10) + last
  }

  /** Below this magnitude `Number.prototype.toString` writes an integer in plain decimal. */
  const ExponentThreshold: nat := 1_000_000_000_000_000_000_000

  /** The integer without its trailing zero digits. */
  function StripTrailingZeros(n: nat): nat
    decreases n
  {
    if n > 0 && n % 10 == 0 then StripTrailingZeros(n / 10) else n
  }

  /** `String(n)` for a non-negative integer: plain digits, or `d.ddde+k` from 10^21 on. */
  function UnsignedText(m: nat): string {
    if m < ExponentThreshold then DecimalDigits(m)
    else
      var significant := DecimalDigits(StripTrailingZeros(m));
      var fraction := if |significant| > 1 then "." + significant[1..] else "";
      [significant[0]] + fraction + "e+" + DecimalDigits(|DecimalDigits(m)| - 1)
  }

  /** `String(n)` for an integer-valued number. */
  function NumberText(n: int): string {
    if n < 0 then "-" + UnsignedText(-n) else UnsignedText(n)
  }

  /** `String(v)`, the text a regular expression's `test` reads; an object is a plain one. */
  function ToText(v: Value): string {
    match v
    case Undefined => "undefined"
    case Null => "null"
    case Bool(b) => if b then "true" else "false"
    case Num(n) => NumberText(n)
    case Str(s) => s
    case Obj => "[object Object]"
  }

  const TwoTo32: int := 0x1_0000_0000
  const TwoTo31: int := 0x8000_0000

  /** ToInt32 of ECMAScript: reduce modulo 2^32 into the signed range. */
  function ToInt32(x: int): (r: int)
    ensures -TwoTo31 <= r < TwoTo31
    ensures (x - r) % TwoTo32 == 0
  {
    var m := x % TwoTo32;
    if m >= TwoTo31 then m - TwoTo32 else m
  }

  /** `x << 5` on a JS number holding an integer. */
  function ShiftLeft5(x: int): (r: int)
    ensures -TwoTo31 <= r < TwoTo31
    ensures (r - x * 32) % TwoTo32 == 0
  {
    var y := ToInt32(x);
    var r := ToInt32(y * 32);
    var k := (x - y) / TwoTo32;
    var j := (y * 32 - r) / TwoTo32;
    assert x - y == k * TwoTo32;
    assert y * 32 - r == j * TwoTo32;
    assert r - x * 32 == -(j + 32 * k) * TwoTo32;
    r
  }

  /** `Math.abs`. */
  function Abs(x: int): nat {
    if x < 0 then -x else x
  }

  /** `s.slice(start)`: a suffix; a negative start keeps the last `-start` elements. */
  function SliceFrom<T>(s: seq<T>, start: int): (r: seq<T>)
    ensures |r| <= |s| && r == s[|s| - |r|..]
    ensures start < 0 ==> |r| == (if -start <= |s| then -start else |s|)
    ensures start >= 0 ==> |r| == (if start <= |s| then |s| - start else 0)
  {
    var from := if start < 0 then (if |s| + start >= 0 then |s| + start else 0)
                else (if start <= |s| then start else |s|);
    s[from..]
  }

  /** `s.slice(lo, hi)` for non-negative bounds: the elements from index `lo` up to, not including, `hi`. */
  function Slice<T>(s: seq<T>, lo: nat, hi: nat): (r: seq<T>)
    ensures |r| == (if lo < hi && lo < |s| then (if hi <= |s| then hi else |s|) - lo else 0)
    ensures forall i :: 0 <= i < |r| ==> r[i] == s[lo + i]
  {
    var h := if hi <= |s| then hi else |s|;
    var l := if lo <= h then lo else h;
    s[l..h]
  }
}
