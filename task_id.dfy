/**
 * generateTaskId (gtd-manager.ts:299-309): a 32-bit wrapping rolling hash of
 * `"<path>:<line>:<content>"` over its UTF-16 code units, whose absolute
 * value is rendered in base 36.
 */
module TaskId {
  import opened Text

  const TWO_31: int := 0x8000_0000
  const TWO_32: int := 0x1_0000_0000

  predicate IsInt32(h: int) {
    -TWO_31 <= h < TWO_31
  }

  /** ECMAScript ToInt32: the signed 32-bit integer congruent to x modulo 2^32. */
  function ToInt32(x: int): (r: int)
    ensures IsInt32(r)
    ensures (r - x) % TWO_32 == 0
  {
    (x + TWO_31) % TWO_32 - TWO_31
  }

  /** ToInt32 depends only on the residue modulo 2^32. */
  lemma ToInt32Shift(b: int, j: int)
    ensures ToInt32(b + TWO_32 * j) == ToInt32(b)
  {
    var q := (b + TWO_31) / TWO_32;
    var m := (b + TWO_31) % TWO_32;
    assert b + TWO_32 * j + TWO_31 == TWO_32 * (q + j) + m;
  }

  lemma ToInt32Congruent(a: int, b: int)
    requires (a - b) % TWO_32 == 0
    ensures ToInt32(a) == ToInt32(b)
  {
    var k := (a - b) / TWO_32;
    assert a == b + TWO_32 * k;
    ToInt32Shift(b, k);
  }

  /** On a 32-bit value, ToInt32 changes nothing. */
  lemma ToInt32Id(x: int)
    requires IsInt32(x)
    ensures ToInt32(x) == x
  {
  }

  /**
   * One turn of the loop body as written: `hash << 5` (a 32-bit shift),
   * then `- hash + char` in exact arithmetic, then `hash & hash`, which
   * truncates to 32 bits again.
   */
  function HashStep(h: int, unit: int): (r: int)
    ensures IsInt32(r)
  {
    ToInt32(ToInt32(h * 32) - h + unit)
  }

  /** The step is the textbook `h * 31 + c` modulo 2^32. */
  lemma HashStepIsTimes31(h: int, unit: int)
    ensures HashStep(h, unit) == ToInt32(31 * h + unit)
  {
    var s := ToInt32(h * 32);
    assert (s - h * 32) % TWO_32 == 0;
    assert (s - h + unit) - (31 * h + unit) == s - h * 32;
    ToInt32Congruent(s - h + unit, 31 * h + unit);
  }

  /** The hash after the whole loop, from `hash = 0`. */
  function Hash(units: seq<int>): (h: int)
    ensures IsInt32(h)
  {
    if |units| == 0 then 0 else HashStep(Hash(units[..|units| - 1]), units[|units| - 1])
  }

  /** The reference definition: the polynomial sum of c_i * 31^(n-1-i), without wrapping. */
  function Polynomial(units: seq<int>): int
  {
    if |units| == 0 then 0 else 31 * Polynomial(units[..|units| - 1]) + units[|units| - 1]
  }

  /** The wrapping hash is the reference polynomial reduced to 32 bits. */
  lemma {:induction false} HashIsPolynomial(units: seq<int>)
    ensures Hash(units) == ToInt32(Polynomial(units))
  {
    if |units| > 0 {
      var init, c := units[..|units| - 1], units[|units| - 1];
      HashIsPolynomial(init);
      var h, p := Hash(init), Polynomial(init);
      HashStepIsTimes31(h, c);
      var k := (h - p) / TWO_32;
      assert h == p + TWO_32 * k;
      assert 31 * h + c == 31 * p + c + TWO_32 * (31 * k) by {
        assert 31 * (p + TWO_32 * k) == 31 * p + TWO_32 * (31 * k);
      }
      ToInt32Shift(31 * p + c, 31 * k);
    }
  }

  /** `Math.abs` of the 32-bit hash; at most 2^31. */
  function Abs(h: int): (r: nat)
  {
    if h < 0 then -h else h
  }

  /** The string that is hashed: `${filePath}:${lineNumber}:${content}`. */
  function HashedKey(filePath: string, lineNumber: int, content: string): string
  {
    filePath + ":" + IntToString(lineNumber) + ":" + content
  }

  /** The id of a marker: base 36 of the absolute hash of its key. */
  function TaskIdOf(filePath: string, lineNumber: int, content: string): (id: string)
    ensures |id| >= 1 && AllRadixDigits(id, 36)
  {
    var hash := Hash(Utf16(HashedKey(filePath, lineNumber, content)));
    ToRadix(Abs(hash), 36)
  }

  /** An id reads back, in base 36, as the absolute value of a 32-bit hash:
      it is at most 2^31 and so has at most seven digits. */
  lemma TaskIdDecodes(filePath: string, lineNumber: int, content: string)
    ensures var id := TaskIdOf(filePath, lineNumber, content);
      && FromRadix(id, 36) == Abs(Hash(Utf16(HashedKey(filePath, lineNumber, content))))
      && FromRadix(id, 36) <= TWO_31
      && (id[0] == '0' ==> id == "0")
  {
    var n := Abs(Hash(Utf16(HashedKey(filePath, lineNumber, content))));
    FromToRadix(n, 36);
    if n >= 36 {
      assert TaskIdOf(filePath, lineNumber, content)[0] != '0';
    }
  }

  /** generateTaskId: the loop over the UTF-16 code units of the key. */
  method GenerateTaskId(filePath: string, lineNumber: int, content: string) returns (id: string)
    ensures id == TaskIdOf(filePath, lineNumber, content)
  {
    var str := Utf16(HashedKey(filePath, lineNumber, content));
    var hash := 0;
    var i := 0;
    while i < |str|
      invariant 0 <= i <= |str|
      invariant hash == Hash(str[..i])
    {
      var code := str[i];
      hash := ToInt32(hash * 32) - hash + code;
      hash := ToInt32(hash);
      assert str[..i + 1][..i] == str[..i];
      i := i + 1;
    }
    assert str[..i] == str;
    id := ToRadix(Abs(hash), 36);
  }
}
