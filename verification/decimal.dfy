/** The little text-and-number layer the application leans on: the decimal text
    MySQL writes for an integer, JavaScript's `Number(text)` for decimal text, and
    `Array.prototype.join` / `String.prototype.split` with a one-character separator. */
module Decimal {

  /** A JavaScript number as the application uses one: a natural, or `NaN`. */
  datatype JsNum = Num(value: nat) | NaN {
    /** JavaScript truthiness of a number: `0` and `NaN` are falsy. */
    predicate Truthy() {
      Num? && value != 0
    }
  }

  predicate IsDigit(c: char) {
    '0' <= c <= '9'
  }

  predicate AllDigits(s: string) {
    forall i :: 0 <= i < |s| ==> IsDigit(s[i])
  }

  function DigitValue(c: char): (d: nat)
    requires IsDigit(c)
    ensures d < 10
  {
    (c as int) - ('0' as int)
  }

  function DigitChar(d: nat): (c: char)
    requires d < 10
    ensures IsDigit(c) && DigitValue(c) == d
  {
    (('0' as int) + d) as char
  }

  /** Decimal text of `n` without leading zeros. */
  function ToDecimal(n: nat): (s: string)
    ensures |s| > 0 && AllDigits(s)
    ensures ',' !in s
  {
    if n < 10 then [DigitChar(n)] else ToDecimal(n / 10) + [DigitChar(n % 10)]
  }

  /** Value of a string of decimal digits, most significant first. */
  function DigitsValue(s: string): nat
    requires AllDigits(s)
  {
    if |s| == 0 then 0 else DigitsValue(s[..|s| - 1]) * 10 + DigitValue(s[|s| - 1])
  }

  /** JavaScript `Number(text)`: the empty text is `0`, a run of decimal digits is
      its value (leading zeros allowed), anything else is `NaN`. */
  function Number(s: string): (r: JsNum)
    ensures r.NaN? <==> !AllDigits(s)
    ensures |s| == 0 ==> r == Num(0)
  {
    if |s| == 0 then Num(0)
    else if AllDigits(s) then Num(DigitsValue(s))
    else NaN
  }

  /** A leading zero does not change the value of a digit string. */
  lemma {:induction false} LeadingZeroDigits(s: string)
    requires AllDigits(s)
    ensures AllDigits("0" + s) && DigitsValue("0" + s) == DigitsValue(s)
    decreases |s|
  {
    if |s| > 0 {
      LeadingZeroDigits(s[..|s| - 1]);
      assert ("0" + s)[..|"0" + s| - 1] == "0" + s[..|s| - 1];
    }
  }

  /** `Number` ignores leading zeros of a non-empty digit string. */
  lemma LeadingZeroIgnored(s: string)
    requires |s| > 0 && AllDigits(s)
    ensures Number("0" + s) == Number(s)
  {
    LeadingZeroDigits(s);
  }

  /** Reading back the decimal text of a natural gives that natural. */
  lemma {:induction false} NumberOfDecimal(n: nat)
    ensures Number(ToDecimal(n)) == Num(n)
    decreases n
  {
    var s := ToDecimal(n);
    if n >= 10 {
      NumberOfDecimal(n / 10);
      assert s[..|s| - 1] == ToDecimal(n / 10);
      assert DigitsValue(s) == (n / 10) * 10 + n % 10;
    }
  }

  /** Two naturals have the same decimal text only if they are equal. */
  lemma DecimalInjective(m: nat, n: nat)
    requires ToDecimal(m) == ToDecimal(n)
    ensures m == n
  {
    NumberOfDecimal(m);
    NumberOfDecimal(n);
  }

  /** `pieces.join([sep])`. */
  function Join(pieces: seq<string>, sep: char): string
  {
    if |pieces| == 0 then ""
    else if |pieces| == 1 then pieces[0]
    else pieces[0] + [sep] + Join(pieces[1..], sep)
  }

  /** Position of the first `c` in `s`. */
  function IndexOf(s: string, c: char): (k: nat)
    requires c in s
    ensures k < |s| && s[k] == c && c !in s[..k]
  {
    if s[0] == c then 0 else 1 + IndexOf(s[1..], c)
  }

  /** `s.split([sep])`: the pieces between separators; never empty, since
      splitting text without a separator yields that text alone. */
  function Split(s: string, sep: char): (r: seq<string>)
    ensures |r| >= 1
    ensures forall i :: 0 <= i < |r| ==> sep !in r[i]
    decreases |s|
  {
    if sep !in s then [s]
    else
      var k := IndexOf(s, sep);
      [s[..k]] + Split(s[k + 1..], sep)
  }

  /** Splitting undoes joining, as long as no piece holds the separator and
      there is at least one piece (`[].join(",")` and `[""].join(",")` are both `""`). */
  lemma {:induction false} SplitJoin(pieces: seq<string>, sep: char)
    requires |pieces| >= 1
    requires forall i :: 0 <= i < |pieces| ==> sep !in pieces[i]
    ensures Split(Join(pieces, sep), sep) == pieces
    decreases |pieces|
  {
    if |pieces| > 1 {
      var s := Join(pieces, sep);
      var rest := Join(pieces[1..], sep);
      assert s == pieces[0] + [sep] + rest;
      assert sep in s by { assert s[|pieces[0]|] == sep; }
      var k := IndexOf(s, sep);
      assert s[..|pieces[0]|] == pieces[0];
      assert k == |pieces[0]|;
      assert s[..k] == pieces[0];
      assert s[k + 1..] == rest;
      SplitJoin(pieces[1..], sep);
    }
  }

  /** Joining undoes splitting, for every text. */
  lemma {:induction false} JoinSplit(s: string, sep: char)
    ensures Join(Split(s, sep), sep) == s
    decreases |s|
  {
    if sep in s {
      var k := IndexOf(s, sep);
      JoinSplit(s[k + 1..], sep);
      assert s == s[..k] + [sep] + s[k + 1..];
    }
  }

  /** Decimal text of each id, in order. */
  function Decimals(ids: seq<nat>): (r: seq<string>)
    ensures |r| == |ids|
    ensures forall i :: 0 <= i < |r| ==> r[i] == ToDecimal(ids[i])
  {
    seq(|ids|, i requires 0 <= i < |ids| => ToDecimal(ids[i]))
  }

  /** `.map(Number)` over a list of texts. */
  function Numbers(pieces: seq<string>): (r: seq<JsNum>)
    ensures |r| == |pieces|
    ensures forall i :: 0 <= i < |r| ==> r[i] == Number(pieces[i])
  {
    seq(|pieces|, i requires 0 <= i < |pieces| => Number(pieces[i]))
  }

  /** The ids as plain JavaScript numbers. */
  function Nums(ids: seq<nat>): (r: seq<JsNum>)
    ensures |r| == |ids|
    ensures forall i :: 0 <= i < |r| ==> r[i] == Num(ids[i])
  {
    seq(|ids|, i requires 0 <= i < |ids| => Num(ids[i]))
  }

  /** A non-empty id list written as comma-joined decimals and read back with
      `split(",").map(Number)` comes back unchanged. */
  lemma EncodedIdsRoundTrip(ids: seq<nat>)
    requires |ids| >= 1
    ensures Numbers(Split(Join(Decimals(ids), ','), ',')) == Nums(ids)
  {
    var pieces := Decimals(ids);
    SplitJoin(pieces, ',');
    forall i | 0 <= i < |ids|
      ensures Number(pieces[i]) == Num(ids[i])
    {
      NumberOfDecimal(ids[i]);
    }
  }

  /** The comma-joined decimals of a non-empty id list are non-empty text. */
  lemma {:induction false} JoinedDecimalsNonEmpty(ids: seq<nat>)
    requires |ids| >= 1
    ensures |Join(Decimals(ids), ',')| > 0
  {
    var pieces := Decimals(ids);
    if |pieces| > 1 {
      assert |Join(pieces, ',')| >= |pieces[0]|;
    }
  }
}
