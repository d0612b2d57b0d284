/** The file name a generated migration or package script is saved under:
    today's date (eight digits), a six-digit sequence number one above the
    one in the last existing script's name, an underscore, the snake-case
    class name and `.php`. The directory listing, the date and the
    snake-case conversion are inputs. */
module VersionName {
  import opened Common
  import opened Numeric

  /** The sequence of the first script in an empty directory. */
  const FirstVersion := "000001"

  /** The sequence field of a script name: the six characters after the
      eight-digit date, read with `intval`. */
  function SequenceOf(fileName: string): int {
    IntVal(Substr(fileName, 8, 6))
  }

  /** The next sequence text: one above the last script's, padded on the
      left with zeros to at least six characters. */
  function NextVersion(existing: seq<string>): (r: string)
    ensures |r| >= 6
  {
    if |existing| == 0 then FirstVersion
    else PadLeft(IntToString(SequenceOf(existing[|existing| - 1]) + 1), 6, '0')
  }

  /** The name of the next script. `existing` is the sorted listing of the
      script directory (base names), `date` is today as `YYYYMMDD`. */
  function FileName(existing: seq<string>, date: string, snakeClass: string): string {
    date + NextVersion(existing) + ("_" + snakeClass + ".php")
  }

  // ---------------------------------------------------------------------
  // Properties

  /** Padding a digit string with zeros on the left gives zeros followed by
      the string. */
  lemma PadLeftZeros(s: string, len: nat)
    requires |s| <= len
    ensures PadLeft(s, len, '0') == Zeros(len - |s|) + s
  {
    if |s| == len {
      assert Zeros(0) + s == s;
    } else {
      assert seq(len - |s|, _ => '0') == Zeros(len - |s|);
    }
  }

  /** A sequence number below a million is written as exactly six digits
      that read back as the number. */
  lemma SixDigits(n: nat)
    requires n < Pow10(6)
    ensures var v := PadLeft(IntToString(n), 6, '0');
      |v| == 6 && AllDigits(v) && DigitsValue(v) == n
  {
    var s := NatToString(n);
    NatToStringLength(n, 6);
    PadLeftZeros(s, 6);
    LeadingZeros(6 - |s|, s);
    NatToStringValue(n);
  }

  /** An empty directory yields sequence 000001. */
  lemma FirstScript(date: string, snakeClass: string)
    ensures FileName([], date, snakeClass) == date + "000001_" + snakeClass + ".php"
  {
  }

  /** The first sequence reads back as 1. */
  lemma FirstVersionValue()
    ensures |FirstVersion| == 6 && AllDigits(FirstVersion) && DigitsValue(FirstVersion) == 1
  {
    assert FirstVersion == Zeros(5) + "1";
    LeadingZeros(5, "1");
  }

  /** The sequence embedded in a name built from a six-digit version reads
      back as that version. */
  lemma SequenceOfName(date: string, v: string, tail: string)
    requires |date| == 8 && |v| == 6 && AllDigits(v)
    ensures SequenceOf(date + v + tail) == DigitsValue(v)
  {
    var name := date + v + tail;
    assert name[8..14] == v;
    assert Substr(name, 8, 6) == v;
    IntValDigits(v);
    DigitsValueBound(v);
    assert Pow10(6) == 1000000;
  }

  /** A string of k digits denotes a number below 10^k. */
  lemma {:induction false} DigitsValueBound(d: string)
    requires AllDigits(d)
    ensures DigitsValue(d) < Pow10(|d|)
    decreases |d|
  {
    if |d| > 0 {
      DigitsValueBound(d[..|d| - 1]);
    }
  }

  /** The sequence embedded in the new name reads back as one more than the
      sequence of the last existing script (as long as it fits six digits),
      and as 1 in an empty directory. */
  lemma SequenceIncrements(existing: seq<string>, date: string, snakeClass: string)
    requires |date| == 8
    requires |existing| > 0 ==> 0 <= SequenceOf(existing[|existing| - 1]) + 1 < Pow10(6)
    ensures SequenceOf(FileName(existing, date, snakeClass))
         == if |existing| == 0 then 1 else SequenceOf(existing[|existing| - 1]) + 1
  {
    var v := NextVersion(existing);
    if |existing| == 0 {
      FirstVersionValue();
    } else {
      SixDigits(SequenceOf(existing[|existing| - 1]) + 1);
    }
    SequenceOfName(date, v, "_" + snakeClass + ".php");
  }

  /** Past 999999 the sequence outgrows its six characters: the next name
      carries the seven digits `1000000`, and reading that name back keeps
      only the first six, so the sequence drops to 100000. */
  lemma SequenceRollOver(existing: seq<string>, date: string, snakeClass: string)
    requires |date| == 8 && |existing| > 0
    requires SequenceOf(existing[|existing| - 1]) == 999999
    ensures NextVersion(existing) == "1000000"
    ensures SequenceOf(FileName(existing, date, snakeClass)) == 100000
  {
    MillionText();
    var name := FileName(existing, date, snakeClass);
    assert name == date + "1000000" + ("_" + snakeClass + ".php");
    ReadSixOfSeven(name);
  }

  /** The sequence after 999999 is written with seven digits. */
  lemma MillionText()
    ensures PadLeft(IntToString(999999 + 1), 6, '0') == "1000000"
  {
    PowerText(6);
    assert Pow10(6) == 1000000;
    assert "1" + Zeros(6) == "1000000";
  }

  /** Six characters of `1000000` read as 100000. */
  lemma ReadSixOfSeven(name: string)
    requires |name| >= 15 && name[8..15] == "1000000"
    ensures SequenceOf(name) == 100000
  {
    assert name[8..14] == name[8..15][..6] == "100000";
    assert "1" + Zeros(5) == "100000";
    PowerValue(5);
    IntValDigits("1" + Zeros(5));
    assert Pow10(5) == 100000;
  }

  /** A power of ten is written as a one followed by zeros. */
  lemma {:induction false} PowerText(k: nat)
    ensures NatToString(Pow10(k)) == "1" + Zeros(k)
  {
    if k > 0 {
      PowerText(k - 1);
      assert Pow10(k) / 10 == Pow10(k - 1) && Pow10(k) % 10 == 0;
      assert "1" + Zeros(k) == "1" + Zeros(k - 1) + "0";
    }
  }

  /** A one followed by zeros reads as a power of ten. */
  lemma {:induction false} PowerValue(k: nat)
    ensures AllDigits("1" + Zeros(k))
    ensures DigitsValue("1" + Zeros(k)) == Pow10(k)
  {
    if k > 0 {
      PowerValue(k - 1);
      var d := "1" + Zeros(k);
      assert d[..|d| - 1] == "1" + Zeros(k - 1);
    }
  }
}
