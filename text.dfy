/**
 * The JavaScript string operations the manager relies on, over Dafny strings.
 * A Dafny `char` is a Unicode scalar value; the UTF-16 code units that
 * JavaScript indexes by are derived explicitly where the source depends on
 * them (`charCodeAt`, `length`, `substring`).
 */
module Text {

  /** `s.startsWith(p)`. */
  predicate IsPrefix(p: string, s: string) {
    |p| <= |s| && s[..|p|] == p
  }

  /** `pat` occurs in `s` starting at index `i`. */
  predicate OccursAt(s: string, pat: string, i: int) {
    0 <= i && i + |pat| <= |s| && s[i..i + |pat|] == pat
  }

  /** `s.indexOf(pat, i)`: the first occurrence at or after `i`, or -1. */
  function IndexFrom(s: string, pat: string, i: nat): (r: int)
    requires i <= |s| + 1
    ensures r == -1 || (i <= r && OccursAt(s, pat, r))
    ensures forall j :: i <= j && (r == -1 || j < r) ==> !OccursAt(s, pat, j)
    decreases |s| + 1 - i
  {
    if i + |pat| > |s| then -1
    else if s[i..i + |pat|] == pat then i
    else IndexFrom(s, pat, i + 1)
  }

  /** `s.indexOf(pat)`. */
  function IndexOf(s: string, pat: string): (r: int)
    ensures r == -1 || OccursAt(s, pat, r)
    ensures forall j :: 0 <= j && (r == -1 || j < r) ==> !OccursAt(s, pat, j)
  {
    IndexFrom(s, pat, 0)
  }

  /** `s.includes(pat)`. */
  predicate Includes(s: string, pat: string) {
    IndexOf(s, pat) != -1
  }

  /** `s.replace(pat, rep)` with a string pattern: only the first occurrence is replaced. */
  function ReplaceFirst(s: string, pat: string, rep: string): (r: string)
  {
    var i := IndexOf(s, pat);
    if i == -1 then s else s[..i] + rep + s[i + |pat|..]
  }

  /** Text containing `pat + more` contains `pat`, no later than `pat + more`. */
  lemma IncludesShorter(s: string, pat: string, more: string)
    requires Includes(s, pat + more)
    ensures Includes(s, pat) && IndexOf(s, pat) <= IndexOf(s, pat + more)
  {
    var i := IndexOf(s, pat + more);
    assert s[i..i + |pat|] == (pat + more)[..|pat|];
    assert OccursAt(s, pat, i);
  }

  /** Replacing an occurring pattern by one of equal length rewrites exactly that window. */
  lemma ReplaceFirstInPlace(s: string, pat: string, rep: string)
    requires Includes(s, pat) && |rep| == |pat|
    ensures var i := IndexOf(s, pat);
      && |ReplaceFirst(s, pat, rep)| == |s|
      && ReplaceFirst(s, pat, rep)[i..i + |pat|] == rep
      && forall j :: 0 <= j < |s| && !(i <= j < i + |pat|) ==> ReplaceFirst(s, pat, rep)[j] == s[j]
  {
  }

  // ---------------------------------------------------------------------
  // split('\n') and join('\n')

  /** `s.split('\n')`: never empty; `""` splits into `[""]`. */
  function Split(s: string): (r: seq<string>)
    ensures |r| >= 1
    ensures forall i :: 0 <= i < |r| ==> '\n' !in r[i]
  {
    if |s| == 0 then [""]
    else if s[0] == '\n' then [""] + Split(s[1..])
    else
      var rest := Split(s[1..]);
      [[s[0]] + rest[0]] + rest[1..]
  }

  /** `lines.join('\n')`. */
  function Join(lines: seq<string>): string
  {
    if |lines| == 0 then ""
    else if |lines| == 1 then lines[0]
    else lines[0] + "\n" + Join(lines[1..])
  }

  predicate NoNewline(s: string) {
    '\n' !in s
  }

  predicate NoNewlines(lines: seq<string>) {
    forall i :: 0 <= i < |lines| ==> NoNewline(lines[i])
  }

  /** Joining the pieces of a split gives back the text. */
  lemma {:induction false} JoinSplit(s: string)
    ensures Join(Split(s)) == s
    decreases |s|
  {
    if |s| == 0 {
    } else if s[0] == '\n' {
      JoinSplit(s[1..]);
      assert s == "\n" + s[1..];
    } else {
      var rest := Split(s[1..]);
      JoinSplit(s[1..]);
      if |rest| == 1 {
        assert Split(s) == [[s[0]] + rest[0]];
        assert s == [s[0]] + s[1..];
      } else {
        assert Split(s)[1..] == rest[1..];
        assert Join(rest) == rest[0] + "\n" + Join(rest[1..]);
        assert s == [s[0]] + s[1..];
      }
    }
  }

  lemma {:induction false} SplitSingle(a: string)
    requires NoNewline(a)
    ensures Split(a) == [a]
    decreases |a|
  {
    if |a| > 0 {
      assert NoNewline(a[1..]) by { assert forall c :: c in a[1..] ==> c in a; }
      SplitSingle(a[1..]);
      assert a == [a[0]] + a[1..];
    }
  }

  lemma {:induction false} SplitAfterLine(a: string, t: string)
    requires NoNewline(a)
    ensures Split(a + "\n" + t) == [a] + Split(t)
    decreases |a|
  {
    if |a| == 0 {
      assert a + "\n" + t == "\n" + t;
      assert ("\n" + t)[1..] == t;
    } else {
      assert NoNewline(a[1..]) by { assert forall c :: c in a[1..] ==> c in a; }
      SplitAfterLine(a[1..], t);
      assert (a + "\n" + t)[1..] == a[1..] + "\n" + t;
      assert a == [a[0]] + a[1..];
    }
  }

  /** Splitting joined lines that hold no line feed gives back the lines. */
  lemma {:induction false} SplitJoin(lines: seq<string>)
    requires |lines| >= 1 && NoNewlines(lines)
    ensures Split(Join(lines)) == lines
    decreases |lines|
  {
    if |lines| == 1 {
      SplitSingle(lines[0]);
    } else {
      SplitJoin(lines[1..]);
      SplitAfterLine(lines[0], Join(lines[1..]));
      assert lines == [lines[0]] + lines[1..];
    }
  }

  /** Replacing one line of a text's lines by a line without line feeds and
      joining again: the new text splits into exactly the edited lines. */
  lemma EditLine(s: string, n: nat, line: string)
    requires n < |Split(s)| && NoNewline(line)
    ensures Split(Join(Split(s)[n := line])) == Split(s)[n := line]
  {
    var lines := Split(s)[n := line];
    assert NoNewlines(lines);
    SplitJoin(lines);
  }

  // ---------------------------------------------------------------------
  // Number rendering: String(n) and n.toString(radix)

  /** The digit for `d` in radices up to 36: `0-9` then `a-z`. */
  function DigitChar(d: nat): (c: char)
    requires d < 36
  {
    if d < 10 then ('0' as int + d) as char else ('a' as int + d - 10) as char
  }

  /** The value of a digit character, or 36 for any other character. */
  function DigitValue(c: char): (d: nat)
  {
    if '0' <= c <= '9' then c as int - '0' as int
    else if 'a' <= c <= 'z' then c as int - 'a' as int + 10
    else 36
  }

  predicate IsRadixDigit(c: char, radix: nat) {
    DigitValue(c) < radix
  }

  predicate AllRadixDigits(s: string, radix: nat) {
    forall i :: 0 <= i < |s| ==> IsRadixDigit(s[i], radix)
  }

  lemma DivMod(n: nat, radix: nat)
    requires 2 <= radix <= n
    ensures 0 <= n % radix < radix && 1 <= n / radix < n
    ensures n == radix * (n / radix) + n % radix
  {
    var q, m := n / radix, n % radix;
    assert n == radix * q + m && 0 <= m < radix;
    assert q >= 1 by {
      if q <= 0 {
        MulLeft(radix, q, 0);
      }
    }
    assert q < n by {
      MulRight(2, radix, q);
    }
  }

  lemma MulLeft(a: int, x: int, y: int)
    requires a >= 0 && x <= y
    ensures a * x <= a * y
  {
  }

  lemma MulRight(a: int, b: int, q: int)
    requires a <= b && q >= 0
    ensures a * q <= b * q
  {
  }

  lemma DigitRoundTrip(d: nat)
    requires d < 36
    ensures DigitValue(DigitChar(d)) == d
  {
  }

  /** `n.toString(radix)` for a non-negative integer: no sign, no leading zero. */
  function ToRadix(n: nat, radix: nat): (r: string)
    requires 2 <= radix <= 36
    ensures |r| >= 1 && AllRadixDigits(r, radix)
    ensures r[0] == '0' ==> n == 0
    decreases n
  {
    if n < radix then
      DigitRoundTrip(n);
      [DigitChar(n)]
    else
      DivMod(n, radix);
      DigitRoundTrip(n % radix);
      ToRadix(n / radix, radix) + [DigitChar(n % radix)]
  }

  /** The value of a string of radix digits, most significant first. */
  function FromRadix(s: string, radix: nat): nat
    requires AllRadixDigits(s, radix)
  {
    if |s| == 0 then 0 else radix * FromRadix(s[..|s| - 1], radix) + DigitValue(s[|s| - 1])
  }

  /** Reading back a rendered number gives the number. */
  lemma {:induction false} FromToRadix(n: nat, radix: nat)
    requires 2 <= radix <= 36
    ensures FromRadix(ToRadix(n, radix), radix) == n
    decreases n
  {
    var r := ToRadix(n, radix);
    if n >= radix {
      DivMod(n, radix);
      DigitRoundTrip(n % radix);
      FromToRadix(n / radix, radix);
      assert r[..|r| - 1] == ToRadix(n / radix, radix);
      assert FromRadix(r, radix) == radix * FromRadix(r[..|r| - 1], radix) + DigitValue(r[|r| - 1]);
    } else {
      DigitRoundTrip(n);
    }
  }

  /** `String(n)` for an integer. */
  function IntToString(i: int): (r: string)
  {
    if i < 0 then "-" + ToRadix(-i, 10) else ToRadix(i, 10)
  }

  /** `s.padStart(2, '0')`. */
  function PadStart2(s: string): (r: string)
  {
    if |s| >= 2 then s else if |s| == 1 then "0" + s else "00"
  }

  /** `String(n).padStart(2, '0')` of a number below 100 is its two digits. */
  lemma TwoDigits(n: nat)
    requires n < 100
    ensures var r := PadStart2(IntToString(n));
      |r| == 2 && AllRadixDigits(r, 10) && FromRadix(r, 10) == n
  {
    var s := ToRadix(n, 10);
    FromToRadix(n, 10);
    if n >= 10 {
      assert ToRadix(n / 10, 10) == [DigitChar(n / 10)];
    }
  }

  /** `String(y)` of a four-digit year has four digits and reads back as y. */
  lemma FourDigits(y: nat)
    requires 1000 <= y < 10000
    ensures var r := IntToString(y);
      |r| == 4 && AllRadixDigits(r, 10) && FromRadix(r, 10) == y
  {
    FromToRadix(y, 10);
    assert ToRadix(y / 1000, 10) == [DigitChar(y / 1000)];
    assert |ToRadix(y / 100, 10)| == 2;
    assert |ToRadix(y / 10, 10)| == 3;
  }

  // ---------------------------------------------------------------------
  // UTF-16 code units

  /** The UTF-16 code units of one character (a surrogate pair above U+FFFF). */
  function CodeUnits(c: char): (u: seq<int>)
    ensures 1 <= |u| <= 2
    ensures forall i :: 0 <= i < |u| ==> 0 <= u[i] < 0x1_0000
    ensures |u| == 2 <==> c as int >= 0x1_0000
  {
    var v := c as int;
    if v < 0x1_0000 then [v]
    else [0xD800 + (v - 0x1_0000) / 0x400, 0xDC00 + (v - 0x1_0000) % 0x400]
  }

  /** A surrogate pair decodes back to its character. */
  lemma CodeUnitsDecode(c: char)
    requires c as int >= 0x1_0000
    ensures var u := CodeUnits(c);
      && 0xD800 <= u[0] < 0xDC00 && 0xDC00 <= u[1] < 0xE000
      && 0x1_0000 + (u[0] - 0xD800) * 0x400 + (u[1] - 0xDC00) == c as int
  {
  }

  /** The UTF-16 encoding of a string: what `charCodeAt` indexes. */
  function Utf16(s: string): (u: seq<int>)
    ensures |u| >= |s|
    ensures forall i :: 0 <= i < |u| ==> 0 <= u[i] < 0x1_0000
  {
    if |s| == 0 then [] else Utf16(s[..|s| - 1]) + CodeUnits(s[|s| - 1])
  }

  /** `s.length`: the number of UTF-16 code units. */
  function Utf16Length(s: string): nat
  {
    if |s| == 0 then 0 else |CodeUnits(s[0])| + Utf16Length(s[1..])
  }

  /** Counting the code units of one more character at the end. */
  lemma {:induction false} Utf16LengthSnoc(s: string, c: char)
    ensures Utf16Length(s + [c]) == Utf16Length(s) + |CodeUnits(c)|
    decreases |s|
  {
    if |s| == 0 {
      assert (s + [c])[1..] == [];
    } else {
      assert (s + [c])[1..] == s[1..] + [c];
      Utf16LengthSnoc(s[1..], c);
    }
  }

  /** `s.length` is the length of the UTF-16 encoding that `charCodeAt` indexes. */
  lemma {:induction false} Utf16LengthIsLength(s: string)
    ensures Utf16Length(s) == |Utf16(s)|
    decreases |s|
  {
    if |s| > 0 {
      var n := |s| - 1;
      Utf16LengthIsLength(s[..n]);
      Utf16LengthSnoc(s[..n], s[n]);
      assert s[..n] + [s[n]] == s;
    }
  }
}
