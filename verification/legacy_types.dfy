/** The column mapping of the older migration generator in the tools
    extension. It has no `null` option and a shorter pattern list: any type
    mentioning `longtext` is text, then sized strings, sized integers and
    decimals; everything else keeps its native type verbatim. */
module LegacyTypes {
  import opened Common
  import opened Numeric
  import opened OrderedMap
  import opened TypePattern
  import opened ArrayLiteral
  import opened PhinxTypes

  /** Alternatives of `(varchar|char)\((\d+)\)`. */
  const StringWords: seq<string> := ["varchar", "char"]

  /** Alternatives of `(bigint|tinyint|int)\((\d+)\)`. */
  const IntegerWords: seq<string> := ["bigint", "tinyint", "int"]

  /** The single alternative of `decimal\((\d+),(\d+)\)`. */
  const DecimalWords: seq<string> := ["decimal"]

  /** The options every legacy column starts from: the default and the
      comment. There is no `null` flag. */
  function LegacyBase(f: Field): (r: Options)
    ensures Keys(r) == ["default", "comment"]
  {
    [("default", DefaultValue(f.default)), ("comment", SStr(f.comment.GetOr("")))]
  }

  /** The column a field becomes in the legacy generator. */
  function LegacyColumn(f: Field): Column {
    var t := f.nativeType;
    var base := LegacyBase(f);
    if Contains(t, "longtext") then Column(f.name, "text", base)
    else match Match(t, StringWords, OneNumber)
      case Some(h) => Column(f.name, "string", Merge(LimitFirst(h), base))
      case None => match Match(t, IntegerWords, OneNumber)
        case Some(h) =>
          Column(f.name, "integer", Put(Merge(LimitFirst(h), base), "default", SInt(IntDefault(f.default))))
        case None => match Match(t, DecimalWords, TwoNumbers)
          case Some(h) => Column(f.name, "decimal", Merge(SizesFirst(h), base))
          case None => Column(f.name, t, base)
  }

  // ---------------------------------------------------------------------
  // Properties

  lemma LegacyBaseGet(f: Field)
    ensures Get(LegacyBase(f), "comment") == Some(SStr(f.comment.GetOr("")))
    ensures !HasKey(LegacyBase(f), "null")
  {
    var b := LegacyBase(f);
    assert b[1..] == [("comment", SStr(f.comment.GetOr("")))];
  }

  /** Branch options placed before the legacy base options stay first. */
  lemma LegacyPrefix(prefix: Options, f: Field)
    requires Disjoint(prefix)
    ensures Merge(prefix, LegacyBase(f)) == prefix + LegacyBase(f)
  {
    var base := LegacyBase(f);
    assert DistinctKeys(base) by {
      assert Keys(base) == ["default", "comment"];
    }
    forall i | 0 <= i < |base| ensures !HasKey(prefix, base[i].0) {
      assert Keys(base)[i] == base[i].0;
      assert IsBaseKey(base[i].0);
    }
    MergeDisjoint(prefix, base);
  }

  /** Behind a disjoint prefix the comment is kept and no `null` appears. */
  lemma LegacyPrefixGet(prefix: Options, f: Field)
    requires Disjoint(prefix)
    ensures !HasKey(Merge(prefix, LegacyBase(f)), "null")
    ensures Get(Merge(prefix, LegacyBase(f)), "comment") == Some(SStr(f.comment.GetOr("")))
  {
    LegacyPrefix(prefix, f);
    assert !HasKey(prefix, "null") && !HasKey(prefix, "comment") by {
      forall i | 0 <= i < |prefix| ensures prefix[i].0 != "null" && prefix[i].0 != "comment" {
        assert !IsBaseKey(prefix[i].0);
      }
    }
    GetConcat(prefix, LegacyBase(f), "null");
    GetConcat(prefix, LegacyBase(f), "comment");
    LegacyBaseGet(f);
  }

  /** A legacy column never carries a `null` option, and always carries the
      field's comment (empty when there is none). */
  lemma LegacyNoNull(f: Field)
    ensures !HasKey(LegacyColumn(f).options, "null")
    ensures Get(LegacyColumn(f).options, "comment") == Some(SStr(f.comment.GetOr("")))
  {
    var t := f.nativeType;
    var c := LegacyColumn(f);
    if Contains(t, "longtext") {
      assert c.options == LegacyBase(f);
      LegacyBaseGet(f);
    } else if Match(t, StringWords, OneNumber).Some? {
      var h := Match(t, StringWords, OneNumber).value;
      assert c.options == Merge(LimitFirst(h), LegacyBase(f));
      LimitDisjoint(h);
      LegacyPrefixGet(LimitFirst(h), f);
    } else if Match(t, IntegerWords, OneNumber).Some? {
      var h := Match(t, IntegerWords, OneNumber).value;
      var m := Merge(LimitFirst(h), LegacyBase(f));
      assert c.options == Put(m, "default", SInt(IntDefault(f.default)));
      LimitDisjoint(h);
      LegacyPrefixGet(LimitFirst(h), f);
      PutOther(m, "default", SInt(IntDefault(f.default)), "null");
      PutOther(m, "default", SInt(IntDefault(f.default)), "comment");
    } else if Match(t, DecimalWords, TwoNumbers).Some? {
      var h := Match(t, DecimalWords, TwoNumbers).value;
      assert c.options == Merge(SizesFirst(h), LegacyBase(f));
      SizesDisjoint(h);
      LegacyPrefixGet(SizesFirst(h), f);
    } else {
      assert c.options == LegacyBase(f);
      LegacyBaseGet(f);
    }
  }

  /** `longtext` wins over every other pattern: the column is text with
      the base options, whatever else the type contains. */
  lemma LongtextFirst(f: Field, before: string, after: string)
    requires f.nativeType == before + "longtext" + after
    ensures LegacyColumn(f) == Column(f.name, "text", LegacyBase(f))
  {
    assert OccursAt(f.nativeType, |before|, "longtext");
  }

  lemma StringWordsAreWords()
    ensures AllWords(StringWords)
  {
  }

  lemma IntegerWordsAreWords()
    ensures AllWords(IntegerWords)
  {
  }

  lemma DecimalWordsAreWords()
    ensures AllWords(DecimalWords)
  {
  }

  /** `varchar(N)` and `char(N)` match the string pattern at the start. */
  lemma StringMatch(w: string, d: string, rest: string)
    requires w in StringWords && |d| > 0 && AllDigits(d) && '(' !in rest
    ensures Match(w + ArgText([d]) + rest, StringWords, OneNumber) == Some(Hit(0, w, [d]))
  {
    StringWordsAreWords();
    assert AllLetters(w);
    assert DigitGroups([d], OneNumber);
    MatchWord(w, [d], OneNumber, rest, StringWords, OneNumber);
    assert SuffixPos(w, StringWords, 0) == Some(0);
  }

  /** `varchar(N)` and `char(N)` are string columns, the limit N first. */
  lemma LegacyString(f: Field, w: string, d: string, rest: string)
    requires w in StringWords && |d| > 0 && AllDigits(d) && '(' !in rest
    requires f.nativeType == w + ArgText([d]) + rest
    requires !Contains(f.nativeType, "longtext")
    ensures LegacyColumn(f)
         == Column(f.name, "string", [("limit", SInt(Clamp(DigitsValue(d))))] + LegacyBase(f))
  {
    StringMatch(w, d, rest);
    var h := Hit(0, w, [d]);
    assert LegacyColumn(f) == Column(f.name, "string", Merge(LimitFirst(h), LegacyBase(f)));
    IntValDigits(d);
    LimitDisjoint(h);
    LegacyPrefix(LimitFirst(h), f);
  }

  /** A word ending in one of the integer alternatives ends in `t`. */
  lemma IntegerSuffixEnd(w: string)
    requires SuffixPos(w, IntegerWords, 0).Some?
    ensures |w| > 0 && w[|w| - 1] == 't'
  {
    var q := SuffixPos(w, IntegerWords, 0).value;
    var a := w[q..];
    assert a == "bigint" || a == "tinyint" || a == "int";
    assert |a| > 0 && a[|a| - 1] == 't';
    assert w[|w| - 1] == a[|a| - 1];
  }

  lemma IntegerNotString(w: string, d: string, rest: string)
    requires AllLetters(w) && SuffixPos(w, IntegerWords, 0).Some?
    requires |d| > 0 && AllDigits(d) && '(' !in rest
    ensures Match(w + ArgText([d]) + rest, StringWords, OneNumber).None?
  {
    StringWordsAreWords();
    assert DigitGroups([d], OneNumber);
    MatchWord(w, [d], OneNumber, rest, StringWords, OneNumber);
    IntegerSuffixEnd(w);
    assert forall a :: a in StringWords ==> |a| > 0 && a[|a| - 1] == 'r';
    SuffixPosLastChar(w, StringWords);
  }

  /** A sized integer type, including any type whose name merely ends in
      `int` (`smallint(6)`, `mediumint(9)`), is an integer column: the limit
      N first, then the default read as an integer, then the comment. */
  lemma LegacyInteger(f: Field, w: string, d: string, rest: string)
    requires AllLetters(w) && SuffixPos(w, IntegerWords, 0).Some?
    requires |d| > 0 && AllDigits(d) && '(' !in rest
    requires f.nativeType == w + ArgText([d]) + rest
    requires !Contains(f.nativeType, "longtext")
    ensures LegacyColumn(f)
         == Column(f.name, "integer",
                   [("limit", SInt(Clamp(DigitsValue(d)))), ("default", SInt(IntDefault(f.default))),
                    ("comment", SStr(f.comment.GetOr("")))])
  {
    IntegerNotString(w, d, rest);
    IntegerWordsAreWords();
    assert DigitGroups([d], OneNumber);
    MatchWord(w, [d], OneNumber, rest, IntegerWords, OneNumber);
    var q := SuffixPos(w, IntegerWords, 0).value;
    var h := Hit(q, w[q..], [d]);
    var m := Merge(LimitFirst(h), LegacyBase(f));
    assert LegacyColumn(f) == Column(f.name, "integer", Put(m, "default", SInt(IntDefault(f.default))));
    IntValDigits(d);
    LimitDisjoint(h);
    LegacyPrefix(LimitFirst(h), f);
    LegacyIntPut(LimitFirst(h), f);
  }

  /** Replacing the default in place keeps the option order. */
  lemma LegacyIntPut(prefix: Options, f: Field)
    requires |prefix| == 1 && Disjoint(prefix)
    ensures Put(prefix + LegacyBase(f), "default", SInt(IntDefault(f.default)))
         == [prefix[0], ("default", SInt(IntDefault(f.default))), ("comment", SStr(f.comment.GetOr("")))]
  {
    var opts := prefix + LegacyBase(f);
    var v := SInt(IntDefault(f.default));
    assert opts[0].0 != "default" by {
      assert !IsBaseKey(prefix[0].0);
    }
    assert opts[1..] == LegacyBase(f);
    assert Put(opts, "default", v) == [opts[0]] + Put(opts[1..], "default", v);
  }

  /** `decimal(P,S)` is a decimal column, the precision and scale first. */
  lemma LegacyDecimal(f: Field, p: string, s: string, rest: string)
    requires |p| > 0 && AllDigits(p) && |s| > 0 && AllDigits(s) && '(' !in rest
    requires f.nativeType == "decimal" + ArgText([p, s]) + rest
    requires !Contains(f.nativeType, "longtext")
    ensures LegacyColumn(f)
         == Column(f.name, "decimal",
                   [("precision", SInt(Clamp(DigitsValue(p)))), ("scale", SInt(Clamp(DigitsValue(s))))]
                   + LegacyBase(f))
  {
    StringWordsAreWords();
    IntegerWordsAreWords();
    DecimalWordsAreWords();
    assert DigitGroups([p, s], TwoNumbers);
    MatchWord("decimal", [p, s], TwoNumbers, rest, StringWords, OneNumber);
    MatchWord("decimal", [p, s], TwoNumbers, rest, IntegerWords, OneNumber);
    MatchWord("decimal", [p, s], TwoNumbers, rest, DecimalWords, TwoNumbers);
    assert SuffixPos("decimal", DecimalWords, 0) == Some(0);
    var h := Hit(0, "decimal", [p, s]);
    assert LegacyColumn(f) == Column(f.name, "decimal", Merge(SizesFirst(h), LegacyBase(f)));
    IntValDigits(p);
    IntValDigits(s);
    SizesDisjoint(h);
    LegacyPrefix(SizesFirst(h), f);
  }

  /** `float(P,S)` matches no legacy pattern and keeps its native type. */
  lemma LegacyFloat(f: Field, p: string, s: string, rest: string)
    requires |p| > 0 && AllDigits(p) && |s| > 0 && AllDigits(s) && '(' !in rest
    requires f.nativeType == "float" + ArgText([p, s]) + rest
    requires !Contains(f.nativeType, "longtext")
    ensures LegacyColumn(f) == Column(f.name, f.nativeType, LegacyBase(f))
  {
    FloatWord();
    assert DigitGroups([p, s], TwoNumbers);
    LegacyUnmatched(f, "float", [p, s], TwoNumbers, rest);
  }

  /** `float` is a word that ends in no decimal pattern word. */
  lemma FloatWord()
    ensures AllLetters("float") && SuffixPos("float", DecimalWords, 0).None?
  {
    SuffixPosLastChar("float", DecimalWords);
  }

  /** A type without an argument list that does not mention `longtext`
      keeps its native type, with the base options. */
  lemma LegacyPlain(f: Field)
    requires '(' !in f.nativeType && !Contains(f.nativeType, "longtext")
    ensures LegacyColumn(f) == Column(f.name, f.nativeType, LegacyBase(f))
  {
    MatchNeedsParen(f.nativeType, StringWords, OneNumber);
    MatchNeedsParen(f.nativeType, IntegerWords, OneNumber);
    MatchNeedsParen(f.nativeType, DecimalWords, TwoNumbers);
  }

  /** A type with a digit argument list whose word does not end in one of
      the pattern words for its number of arguments (`datetime(3)`,
      `bit(1)`, `double(10,2)`; not `smallint(6)`, which ends in `int`), and that does not mention `longtext`,
      keeps its native type with the base options. */
  lemma LegacyUnmatched(f: Field, w: string, groups: seq<string>, gs: Shape, rest: string)
    requires f.nativeType == w + ArgText(groups) + rest
    requires AllLetters(w) && DigitGroups(groups, gs) && '(' !in rest
    requires !Contains(f.nativeType, "longtext")
    requires gs == OneNumber ==> SuffixPos(w, StringWords, 0).None? && SuffixPos(w, IntegerWords, 0).None?
    requires gs == TwoNumbers ==> SuffixPos(w, DecimalWords, 0).None?
    ensures LegacyColumn(f) == Column(f.name, f.nativeType, LegacyBase(f))
  {
    StringWordsAreWords();
    IntegerWordsAreWords();
    DecimalWordsAreWords();
    MatchWord(w, groups, gs, rest, StringWords, OneNumber);
    MatchWord(w, groups, gs, rest, IntegerWords, OneNumber);
    MatchWord(w, groups, gs, rest, DecimalWords, TwoNumbers);
  }

  /** A type in which no opening parenthesis is followed by a digit, such
      as `enum('a','b')`, and that does not mention `longtext`, keeps its
      native type with the base options. */
  lemma LegacyNoDigitArgs(f: Field)
    requires !Contains(f.nativeType, "longtext")
    requires forall j :: 0 <= j < |f.nativeType| - 1 && f.nativeType[j] == '(' ==> !IsDigit(f.nativeType[j + 1])
    ensures LegacyColumn(f) == Column(f.name, f.nativeType, LegacyBase(f))
  {
    MatchNeedsDigits(f.nativeType, StringWords, OneNumber);
    MatchNeedsDigits(f.nativeType, IntegerWords, OneNumber);
    MatchNeedsDigits(f.nativeType, DecimalWords, TwoNumbers);
  }
}
