/** String operations the components rely on: `Array.prototype.join`, its
    inverse for separator-free parts, `Number.prototype.toString` on
    non-negative integers, `String.prototype.padStart` and the `length` of a
    JavaScript string. */
module Text {

  /** The parts glued together with `sep` between consecutive parts; the empty
      list gives the empty string (JavaScript's `parts.join(sep)`). */
  function Join(parts: seq<string>, sep: string): (r: string)
    ensures |parts| == 0 ==> r == ""
    ensures |parts| == 1 ==> r == parts[0]
    ensures |parts| > 0 ==> parts[0] <= r
    decreases |parts|
  {
    if |parts| == 0 then ""
    else if |parts| == 1 then parts[0]
    else parts[0] + sep + Join(parts[1..], sep)
  }

  /** The maximal runs of `s` that do not contain `c`, in order; there is
      always at least one (JavaScript's `s.split(c)` for a one-character `c`). */
  function Split(s: string, c: char): (parts: seq<string>)
    ensures |parts| >= 1
    ensures forall i :: 0 <= i < |parts| ==> c !in parts[i]
    decreases |s|
  {
    if |s| == 0 then [""]
    else if s[0] == c then [""] + Split(s[1..], c)
    else
      var rest := Split(s[1..], c);
      [[s[0]] + rest[0]] + rest[1..]
  }

  /** `t` put in front of every string of `parts`. */
  function PrefixEach(t: string, parts: seq<string>): (r: seq<string>)
    ensures |r| == |parts|
    ensures forall i :: 0 <= i < |r| ==> r[i] == t + parts[i]
  {
    seq(|parts|, i requires 0 <= i < |parts| => t + parts[i])
  }

  /** Every string of `parts` with a leading `t` removed where it has one. */
  function DropEach(t: string, parts: seq<string>): (r: seq<string>)
    ensures |r| == |parts|
    ensures forall i :: 0 <= i < |r| && t <= parts[i] ==> t + r[i] == parts[i]
    ensures forall i :: 0 <= i < |r| && !(t <= parts[i]) ==> r[i] == parts[i]
  {
    seq(|parts|, i requires 0 <= i < |parts| => if t <= parts[i] then parts[i][|t|..] else parts[i])
  }

  /** Reads back the parts of a string produced by `Join(parts, sep)`: splits at
      the first character of `sep` and drops the rest of `sep` from every part
      but the first. */
  function Unjoin(s: string, sep: string): (parts: seq<string>)
    requires |sep| > 0
    ensures |parts| >= 1
  {
    var pieces := Split(s, sep[0]);
    [pieces[0]] + DropEach(sep[1..], pieces[1..])
  }

  /** Splitting a string free of `c` gives the string itself. */
  lemma {:induction false} SplitWithout(s: string, c: char)
    requires c !in s
    ensures Split(s, c) == [s]
    decreases |s|
  {
    if |s| > 0 {
      SplitWithout(s[1..], c);
      assert [s[0]] + s[1..] == s;
    }
  }

  /** A prefix free of `c` sticks to the first part. */
  lemma {:induction false} SplitGlued(t: string, s: string, c: char)
    requires c !in t
    ensures Split(t + s, c) == [t + Split(s, c)[0]] + Split(s, c)[1..]
    decreases |t|
  {
    if |t| > 0 {
      SplitGlued(t[1..], s, c);
      assert (t + s)[1..] == t[1..] + s;
      assert [t[0]] + (t[1..] + Split(s, c)[0]) == t + Split(s, c)[0];
    } else {
      var parts := Split(s, c);
      assert t + s == s;
      assert t + parts[0] == parts[0];
      assert [parts[0]] + parts[1..] == parts;
    }
  }

  /** The first occurrence of `c` ends the first part. */
  lemma {:induction false} SplitAtFirst(a: string, b: string, c: char)
    requires c !in a
    ensures Split(a + [c] + b, c) == [a] + Split(b, c)
    decreases |a|
  {
    if |a| > 0 {
      SplitAtFirst(a[1..], b, c);
      assert (a + [c] + b)[1..] == a[1..] + [c] + b;
      assert [a[0]] + a[1..] == a;
    } else {
      assert a + [c] + b == [c] + b;
      assert ([c] + b)[1..] == b;
    }
  }

  /** Splitting a join at the first separator character yields the first part
      and then every later part preceded by the rest of the separator. */
  lemma {:induction false} SplitJoin(parts: seq<string>, sep: string)
    requires |parts| > 0 && |sep| > 0
    requires sep[0] !in sep[1..]
    requires forall i :: 0 <= i < |parts| ==> sep[0] !in parts[i]
    ensures Split(Join(parts, sep), sep[0]) == [parts[0]] + PrefixEach(sep[1..], parts[1..])
    decreases |parts|
  {
    var c, t := sep[0], sep[1..];
    if |parts| == 1 {
      SplitWithout(parts[0], c);
    } else {
      var tail := Join(parts[1..], sep);
      assert sep == [c] + t;
      assert Join(parts, sep) == parts[0] + [c] + (t + tail);
      SplitAtFirst(parts[0], t + tail, c);
      SplitJoin(parts[1..], sep);
      SplitGlued(t, tail, c);
      assert Split(tail, c) == [parts[1]] + PrefixEach(t, parts[2..]);
      assert PrefixEach(t, parts[1..]) == [t + parts[1]] + PrefixEach(t, parts[2..]);
    }
  }

  /** `Unjoin` inverts `Join` as long as no part contains the separator's first
      character (which must not recur inside the separator). */
  lemma UnjoinJoin(parts: seq<string>, sep: string)
    requires |parts| > 0 && |sep| > 0
    requires sep[0] !in sep[1..]
    requires forall i :: 0 <= i < |parts| ==> sep[0] !in parts[i]
    ensures Unjoin(Join(parts, sep), sep) == parts
  {
    SplitJoin(parts, sep);
    var t := sep[1..];
    var pieces := Split(Join(parts, sep), sep[0]);
    assert pieces[1..] == PrefixEach(t, parts[1..]);
    var dropped := DropEach(t, pieces[1..]);
    forall i | 0 <= i < |dropped| ensures dropped[i] == parts[i + 1] {
      assert pieces[1..][i] == t + parts[i + 1];
      assert t <= pieces[1..][i];
    }
    assert [parts[0]] + parts[1..] == parts;
  }

  /** With a one-character separator, splitting inverts joining. */
  lemma SplitJoinChar(parts: seq<string>, c: char)
    requires |parts| > 0
    requires forall i :: 0 <= i < |parts| ==> c !in parts[i]
    ensures Split(Join(parts, [c]), c) == parts
  {
    var sep := [c];
    assert sep[0] == c && sep[1..] == "";
    SplitJoin(parts, sep);
    var tail := PrefixEach("", parts[1..]);
    forall i | 0 <= i < |tail| ensures tail[i] == parts[1..][i] {
      assert "" + parts[1..][i] == parts[1..][i];
    }
    assert tail == parts[1..];
    assert [parts[0]] + parts[1..] == parts;
  }

  // ----- string length -----

  /** Characters above the Basic Multilingual Plane take two UTF-16 code units. */
  predicate InBmp(ch: char) {
    ch as int < 0x1_0000
  }

  /** JavaScript's `s.length`: the number of UTF-16 code units, one for each
      character of the Basic Multilingual Plane and a surrogate pair for
      each character above it. */
  function Utf16Length(s: string): (n: nat)
    ensures |s| <= n <= 2 * |s|
    decreases |s|
  {
    if |s| == 0 then 0
    else (if InBmp(s[0]) then 1 else 2) + Utf16Length(s[1..])
  }

  /** The code-unit count equals the character count exactly when every
      character lies in the Basic Multilingual Plane. */
  lemma {:induction false} Utf16LengthBmp(s: string)
    ensures Utf16Length(s) == |s| <==> forall i :: 0 <= i < |s| ==> InBmp(s[i])
    decreases |s|
  {
    if |s| > 0 {
      Utf16LengthBmp(s[1..]);
      assert forall i :: 1 <= i < |s| ==> s[i] == s[1..][i - 1];
    }
  }

  /** Code units add up over concatenation. */
  lemma {:induction false} Utf16LengthAppend(s: string, t: string)
    ensures Utf16Length(s + t) == Utf16Length(s) + Utf16Length(t)
    decreases |s|
  {
    if |s| == 0 {
      assert s + t == t;
    } else {
      assert (s + t)[0] == s[0];
      assert (s + t)[1..] == s[1..] + t;
      Utf16LengthAppend(s[1..], t);
    }
  }

  /** One character outside the Basic Multilingual Plane is already two code units long. */
  lemma AstralCharLength(ch: char)
    requires !InBmp(ch)
    ensures Utf16Length([ch]) == 2
  {
    assert [ch][1..] == [];
  }

  // ----- decimal numerals -----

  predicate IsDigit(ch: char) {
    '0' <= ch <= '9'
  }

  predicate AllDigits(s: string) {
    forall i :: 0 <= i < |s| ==> IsDigit(s[i])
  }

  function DigitChar(d: nat): (ch: char)
    requires d < 10
    ensures IsDigit(ch)
  {
    (48 + d) as char
  }

  function DigitValue(ch: char): (d: nat)
    requires IsDigit(ch)
    ensures d < 10
  {
    (ch as int - 48) as nat
  }

  /** The decimal numeral of `n` with no leading zero
      (`n.toString()` on a non-negative integer). */
  function DecimalString(n: nat): (s: string)
    ensures |s| >= 1 && AllDigits(s)
    ensures n >= 1 ==> s[0] != '0'
    decreases n
  {
    if n < 10 then [DigitChar(n)]
    else DecimalString(n / 10) + [DigitChar(n % 10)]
  }

  /** The value of a numeral, leading zeros allowed. */
  function ParseDecimal(s: string): nat
    requires AllDigits(s)
    decreases |s|
  {
    if |s| == 0 then 0
    else ParseDecimal(s[..|s| - 1]) * 10 + DigitValue(s[|s| - 1])
  }

  /** Reading a rendered number back gives the number. */
  lemma {:induction false} ParseDecimalString(n: nat)
    ensures ParseDecimal(DecimalString(n)) == n
    decreases n
  {
    var s := DecimalString(n);
    if n < 10 {
      assert s[..0] == "";
    } else {
      ParseDecimalString(n / 10);
      assert s[..|s| - 1] == DecimalString(n / 10);
    }
  }

  /** Rendering is injective: distinct numbers have distinct numerals. */
  lemma DecimalStringInjective(m: nat, n: nat)
    requires DecimalString(m) == DecimalString(n)
    ensures m == n
  {
    ParseDecimalString(m);
    ParseDecimalString(n);
  }

  /** Numbers from ten on take at least two digits. */
  lemma DecimalStringLength(n: nat)
    ensures n < 10 <==> |DecimalString(n)| == 1
  {
    if n >= 10 {
      assert |DecimalString(n)| == |DecimalString(n / 10)| + 1;
    }
  }

  /** Leading zeros do not change a numeral's value. */
  lemma {:induction false} ParseLeadingZeros(z: string, s: string)
    requires AllDigits(s)
    requires forall i :: 0 <= i < |z| ==> z[i] == '0'
    ensures AllDigits(z + s)
    ensures ParseDecimal(z + s) == ParseDecimal(s)
    decreases |s|
  {
    if |s| == 0 {
      assert z + s == z;
      ParseZeros(z);
    } else {
      ParseLeadingZeros(z, s[..|s| - 1]);
      assert (z + s)[..|z + s| - 1] == z + s[..|s| - 1];
    }
  }

  /** A run of zeros reads as zero. */
  lemma {:induction false} ParseZeros(z: string)
    requires forall i :: 0 <= i < |z| ==> z[i] == '0'
    ensures AllDigits(z) && ParseDecimal(z) == 0
    decreases |z|
  {
    if |z| > 0 {
      ParseZeros(z[..|z| - 1]);
    }
  }

  // ----- padding -----

  /** `n` copies of `ch`. */
  function Repeat(ch: char, n: nat): (r: string)
    ensures |r| == n
    ensures forall i :: 0 <= i < n ==> r[i] == ch
  {
    seq(n, _ => ch)
  }

  /** `s.padStart(width, fill)`: `s` with copies of `fill` in front until it is
      `width` long; a string already that long is returned unchanged. */
  function PadStart(s: string, width: nat, fill: char): (r: string)
    ensures |r| == if |s| >= width then |s| else width
    ensures s <= r[|r| - |s|..] && r[|r| - |s|..] == s
    ensures forall i :: 0 <= i < |r| - |s| ==> r[i] == fill
  {
    if |s| >= width then s else Repeat(fill, width - |s|) + s
  }

  /** `n.toString().padStart(2, "0")`: the two-digit rendering of a count. */
  function TwoDigits(n: nat): (r: string)
    ensures |r| >= 2 && AllDigits(r)
    ensures n < 10 ==> r == ['0', DigitChar(n)]
    ensures n >= 10 ==> r == DecimalString(n)
    ensures r[0] == '0' <==> n < 10
    ensures ParseDecimal(r) == n
  {
    DecimalStringLength(n);
    var s := DecimalString(n);
    var r := PadStart(s, 2, '0');
    ParseDecimalString(n);
    ParseLeadingZeros(r[..|r| - |s|], s);
    assert r == r[..|r| - |s|] + s;
    r
  }
}
