/** The column mapping of the Phinx migration generator: a MySQL column, as
    the schema reader reports it, becomes a generic column kind plus an
    ordered option array. */
module PhinxTypes {
  import opened Common
  import opened Numeric
  import opened OrderedMap
  import opened TypePattern
  import opened ArrayLiteral

  /** A column as the schema reader reports it: its name, its full native
      type (`varchar(255)`, `int(11) unsigned`, ...), whether it is declared
      NOT NULL, its default and its comment. */
  datatype Field = Field(name: string, nativeType: string, notNull: bool,
                         default: Option<string>, comment: Option<string>)

  /** A generated `addColumn(name, kind, options)`. */
  datatype Column = Column(name: string, kind: string, options: Options)

  /** The native-to-generic type table. */
  const TypeTable: map<string, string> := map[
    "varchar" := "string", "enum" := "string", "char" := "string",
    "longtext" := "text", "tinytext" := "text", "mediumtext" := "text",
    "tinyblob" := "binary", "blob" := "binary", "mediumblob" := "binary", "longblob" := "binary",
    "tinyint" := "integer", "smallint" := "integer", "mediumint" := "integer",
    "int" := "integer", "bigint" := "integer"
  ]

  /** Alternatives of `(tinyblob|blob|mediumblob|longblob|varchar|char)\((\d+)\)`. */
  const SizedWords: seq<string> := ["tinyblob", "blob", "mediumblob", "longblob", "varchar", "char"]

  /** Alternatives of `(tinyint|smallint|mediumint|int|bigint)\((\d+)\)`. */
  const IntWords: seq<string> := ["tinyint", "smallint", "mediumint", "int", "bigint"]

  /** Alternatives of `(float|decimal)\((\d+),(\d+)\)`. */
  const FixedWords: seq<string> := ["float", "decimal"]

  function DefaultValue(d: Option<string>): Scalar {
    match d
    case Some(s) => SStr(s)
    case None => SNull
  }

  /** `intval` of the default: a missing default becomes 0. */
  function IntDefault(d: Option<string>): int {
    match d
    case Some(s) => IntVal(s)
    case None => 0
  }

  /** The options every column starts from: the default, the `null` flag
      (the column is nullable when it is not declared NOT NULL) and the
      comment, empty when there is none. */
  function BaseOptions(f: Field): (r: Options)
    ensures Keys(r) == ["default", "null", "comment"]
  {
    [("default", DefaultValue(f.default)), ("null", SBool(!f.notNull)), ("comment", SStr(f.comment.GetOr("")))]
  }

  /** `$types[$t] ?? $otherwise`. */
  function KindOf(t: string, otherwise: string): string {
    if t in TypeTable then TypeTable[t] else otherwise
  }

  /** `array_merge($first, $data)` for the branch options placed before the
      base options. */
  function WithFirst(first: Options, f: Field): Options {
    Merge(first, BaseOptions(f))
  }

  function LimitFirst(h: Hit): Options
    requires |h.groups| >= 1
  {
    [("limit", SInt(IntVal(h.groups[0])))]
  }

  function SizesFirst(h: Hit): Options
    requires |h.groups| >= 2
  {
    [("precision", SInt(IntVal(h.groups[0]))), ("scale", SInt(IntVal(h.groups[1])))]
  }

  /** The sized-integer branch: the limit first, then the default replaced
      in place by its integer reading. */
  function IntOptions(h: Hit, f: Field): Options
    requires |h.groups| >= 1
  {
    Put(WithFirst(LimitFirst(h), f), "default", SInt(IntDefault(f.default)))
  }

  /** The column a field becomes. The branches are tried in order: a bare
      `enum`, a sized string or binary type, a sized integer type, a float
      or decimal with precision and scale, and otherwise a table lookup that
      falls back to the native type itself. */
  function MapColumn(f: Field): Column {
    var t := f.nativeType;
    if t == "enum" then
      Column(f.name, KindOf("enum", "string"), WithFirst([("limit", SInt(10))], f))
    else match Match(t, SizedWords, OneNumber)
      case Some(h) => Column(f.name, KindOf(h.word, "string"), WithFirst(LimitFirst(h), f))
      case None => match Match(t, IntWords, OneNumber)
        case Some(h) => Column(f.name, KindOf(h.word, "integer"), IntOptions(h, f))
        case None => match Match(t, FixedWords, TwoNumbers)
          case Some(h) => Column(f.name, KindOf(h.word, "decimal"), WithFirst(SizesFirst(h), f))
          case None => Column(f.name, KindOf(t, t), BaseOptions(f))
  }

  // ---------------------------------------------------------------------
  // Properties

  predicate IsBaseKey(k: string) {
    k == "default" || k == "null" || k == "comment"
  }

  /** No branch option shares a key with the base options. */
  predicate Disjoint(prefix: Options) {
    forall i :: 0 <= i < |prefix| ==> !IsBaseKey(prefix[i].0)
  }

  lemma BaseGet(f: Field)
    ensures Get(BaseOptions(f), "default") == Some(DefaultValue(f.default))
    ensures Get(BaseOptions(f), "null") == Some(SBool(!f.notNull))
    ensures Get(BaseOptions(f), "comment") == Some(SStr(f.comment.GetOr("")))
  {
    var b := BaseOptions(f);
    var last: Options := [("comment", SStr(f.comment.GetOr("")))];
    assert Get(last, "comment") == Some(SStr(f.comment.GetOr("")));
    assert b[1..][1..] == last;
    assert Get(b[1..], "comment") == Get(last, "comment");
    assert b[1..] == [("null", SBool(!f.notNull))] + last;
  }

  /** Branch options placed before the base options stay first. */
  lemma PrefixOptions(prefix: Options, f: Field)
    requires Disjoint(prefix)
    ensures WithFirst(prefix, f) == prefix + BaseOptions(f)
  {
    var base := BaseOptions(f);
    assert DistinctKeys(base) by {
      assert Keys(base) == ["default", "null", "comment"];
    }
    forall i | 0 <= i < |base| ensures !HasKey(prefix, base[i].0) {
      assert Keys(base)[i] == base[i].0;
      assert IsBaseKey(base[i].0);
    }
    assert KeysAbsent(prefix, base);
    MergeDisjoint(prefix, base);
  }

  /** The base options survive behind any branch options. */
  lemma PrefixKeepsBase(prefix: Options, f: Field)
    requires Disjoint(prefix)
    ensures Get(WithFirst(prefix, f), "null") == Some(SBool(!f.notNull))
    ensures Get(WithFirst(prefix, f), "comment") == Some(SStr(f.comment.GetOr("")))
  {
    PrefixOptions(prefix, f);
    assert !HasKey(prefix, "null") && !HasKey(prefix, "comment") by {
      forall i | 0 <= i < |prefix| ensures prefix[i].0 != "null" && prefix[i].0 != "comment" {
        assert !IsBaseKey(prefix[i].0);
      }
    }
    GetConcat(prefix, BaseOptions(f), "null");
    GetConcat(prefix, BaseOptions(f), "comment");
    BaseGet(f);
  }

  lemma LimitDisjoint(h: Hit)
    requires |h.groups| >= 1
    ensures Disjoint(LimitFirst(h))
  {
  }

  lemma SizesDisjoint(h: Hit)
    requires |h.groups| >= 2
    ensures Disjoint(SizesFirst(h))
  {
  }

  /** Every column carries the `null` flag, true exactly when the field is
      not declared NOT NULL, and its comment. */
  lemma NullFlag(f: Field)
    ensures Get(MapColumn(f).options, "null") == Some(SBool(!f.notNull))
    ensures Get(MapColumn(f).options, "comment") == Some(SStr(f.comment.GetOr("")))
  {
    var t := f.nativeType;
    var c := MapColumn(f);
    if t == "enum" {
      PrefixKeepsBase([("limit", SInt(10))], f);
    } else if Match(t, SizedWords, OneNumber).Some? {
      var h := Match(t, SizedWords, OneNumber).value;
      assert c.options == WithFirst(LimitFirst(h), f);
      LimitDisjoint(h);
      PrefixKeepsBase(LimitFirst(h), f);
    } else if Match(t, IntWords, OneNumber).Some? {
      var h := Match(t, IntWords, OneNumber).value;
      assert c.options == IntOptions(h, f);
      LimitDisjoint(h);
      PrefixKeepsBase(LimitFirst(h), f);
      PutOther(WithFirst(LimitFirst(h), f), "default", SInt(IntDefault(f.default)), "null");
      PutOther(WithFirst(LimitFirst(h), f), "default", SInt(IntDefault(f.default)), "comment");
    } else if Match(t, FixedWords, TwoNumbers).Some? {
      var h := Match(t, FixedWords, TwoNumbers).value;
      assert c.options == WithFirst(SizesFirst(h), f);
      SizesDisjoint(h);
      PrefixKeepsBase(SizesFirst(h), f);
    } else {
      assert c.options == BaseOptions(f);
      BaseGet(f);
    }
  }

  /** A native type without an argument list, other than a bare `enum`, is
      looked up in the type table; a type the table lacks passes through as
      its own kind. The options are the base options alone. */
  lemma PlainType(f: Field)
    requires '(' !in f.nativeType && f.nativeType != "enum"
    ensures MapColumn(f) == Column(f.name, KindOf(f.nativeType, f.nativeType), BaseOptions(f))
    ensures f.nativeType in TypeTable ==> MapColumn(f).kind == TypeTable[f.nativeType]
    ensures f.nativeType !in TypeTable ==> MapColumn(f).kind == f.nativeType
  {
    MatchNeedsParen(f.nativeType, SizedWords, OneNumber);
    MatchNeedsParen(f.nativeType, IntWords, OneNumber);
    MatchNeedsParen(f.nativeType, FixedWords, TwoNumbers);
  }

  /** No key of the type table has an argument list. */
  lemma ParenNotInTable(t: string)
    requires '(' in t
    ensures t !in TypeTable
  {
  }

  /** A type with a digit argument list whose word does not end in one of
      the pattern words for its number of arguments, such as `datetime(3)`,
      `bit(1)` or `double(10,2)`, matches no branch: it passes through as
      its own kind with the base options alone. */
  lemma UnmatchedType(f: Field, w: string, groups: seq<string>, gs: Shape, rest: string)
    requires f.nativeType == w + ArgText(groups) + rest
    requires AllLetters(w) && DigitGroups(groups, gs) && '(' !in rest
    requires gs == OneNumber ==> SuffixPos(w, SizedWords, 0).None? && SuffixPos(w, IntWords, 0).None?
    requires gs == TwoNumbers ==> SuffixPos(w, FixedWords, 0).None?
    ensures MapColumn(f) == Column(f.name, f.nativeType, BaseOptions(f))
  {
    SizedWordsAreWords();
    IntWordsAreWords();
    FixedWordsAreWords();
    ParenNotEnum(w, groups, rest);
    MatchWord(w, groups, gs, rest, SizedWords, OneNumber);
    MatchWord(w, groups, gs, rest, IntWords, OneNumber);
    MatchWord(w, groups, gs, rest, FixedWords, TwoNumbers);
    assert f.nativeType[|w|] == '(';
    ParenNotInTable(f.nativeType);
  }

  /** A type in which no opening parenthesis is followed by a digit, such
      as `enum('a','b')` or `set('x')`, matches none of the patterns: other
      than the bare `enum`, it is looked up in the type table and otherwise
      passes through, with the base options alone. */
  lemma NoDigitArgsType(f: Field)
    requires f.nativeType != "enum"
    requires forall j :: 0 <= j < |f.nativeType| - 1 && f.nativeType[j] == '(' ==> !IsDigit(f.nativeType[j + 1])
    ensures MapColumn(f) == Column(f.name, KindOf(f.nativeType, f.nativeType), BaseOptions(f))
  {
    MatchNeedsDigits(f.nativeType, SizedWords, OneNumber);
    MatchNeedsDigits(f.nativeType, IntWords, OneNumber);
    MatchNeedsDigits(f.nativeType, FixedWords, TwoNumbers);
  }

  /** An `enum` with its values listed is not the bare `enum`: it keeps
      its full native type as the kind and gets no limit. */
  lemma EnumValuesType(f: Field)
    requires f.nativeType == "enum('a','b')"
    ensures MapColumn(f) == Column(f.name, "enum('a','b')", BaseOptions(f))
  {
    var t := f.nativeType;
    assert t[4] == '(' && t[5] == '\'';
    assert forall j :: 0 <= j < |t| - 1 && t[j] == '(' ==> j == 4;
    NoDigitArgsType(f);
    ParenNotInTable(t);
  }

  /** A bare `enum` is a string column limited to 10, the limit first. */
  lemma EnumType(f: Field)
    requires f.nativeType == "enum"
    ensures MapColumn(f) == Column(f.name, "string", [("limit", SInt(10))] + BaseOptions(f))
  {
    PrefixOptions([("limit", SInt(10))], f);
  }

  lemma SizedWordsAreWords()
    ensures AllWords(SizedWords)
  {
  }

  lemma IntWordsAreWords()
    ensures AllWords(IntWords)
  {
  }

  lemma FixedWordsAreWords()
    ensures AllWords(FixedWords)
  {
  }

  /** A type with an argument list is never the bare `enum`. */
  lemma ParenNotEnum(w: string, groups: seq<string>, rest: string)
    ensures w + ArgText(groups) + rest != "enum"
  {
    var t := w + ArgText(groups) + rest;
    assert t[|w|] == '(';
    assert '(' !in "enum";
  }

  lemma KindOfSized(w: string)
    requires w in SizedWords
    ensures KindOf(w, "string") == if w in ["varchar", "char"] then "string" else "binary"
  {
  }

  lemma KindOfInt(w: string)
    requires w in IntWords
    ensures KindOf(w, "integer") == "integer"
  {
  }

  lemma KindOfFixed(w: string)
    requires w in FixedWords
    ensures KindOf(w, "decimal") == "decimal"
  {
  }

  /** The three pattern results for `w(N)rest` with `w` a sized word. */
  lemma SizedMatch(w: string, d: string, rest: string)
    requires w in SizedWords && |d| > 0 && AllDigits(d) && '(' !in rest
    ensures Match(w + ArgText([d]) + rest, SizedWords, OneNumber) == Some(Hit(0, w, [d]))
  {
    SizedWordsAreWords();
    assert DigitGroups([d], OneNumber);
    MatchWord(w, [d], OneNumber, rest, SizedWords, OneNumber);
    assert SuffixPos(w, SizedWords, 0) == Some(0);
  }

  /** The integer words all end in `t`; no sized word does. */
  lemma IntWordEnd(w: string)
    requires w in IntWords
    ensures |w| > 0 && w[|w| - 1] == 't'
  {
  }

  lemma SizedWordsEnd()
    ensures forall a :: a in SizedWords ==> |a| > 0 && a[|a| - 1] != 't'
  {
  }

  lemma IntNotSized(w: string, d: string, rest: string)
    requires w in IntWords && |d| > 0 && AllDigits(d) && '(' !in rest
    ensures Match(w + ArgText([d]) + rest, SizedWords, OneNumber).None?
  {
    SizedWordsAreWords();
    IntWordsAreWords();
    assert AllLetters(w);
    assert DigitGroups([d], OneNumber);
    IntWordEnd(w);
    SizedWordsEnd();
    SuffixPosLastChar(w, SizedWords);
    MatchWord(w, [d], OneNumber, rest, SizedWords, OneNumber);
    assert SuffixPos(w, SizedWords, 0).None?;
  }

  lemma IntMatch(w: string, d: string, rest: string)
    requires w in IntWords && |d| > 0 && AllDigits(d) && '(' !in rest
    ensures Match(w + ArgText([d]) + rest, SizedWords, OneNumber).None?
    ensures Match(w + ArgText([d]) + rest, IntWords, OneNumber) == Some(Hit(0, w, [d]))
  {
    IntNotSized(w, d, rest);
    IntWordsAreWords();
    assert DigitGroups([d], OneNumber);
    MatchWord(w, [d], OneNumber, rest, IntWords, OneNumber);
    assert SuffixPos(w, IntWords, 0) == Some(0);
  }

  lemma FixedMatch(w: string, p: string, s: string, rest: string)
    requires w in FixedWords && '(' !in rest
    requires |p| > 0 && AllDigits(p) && |s| > 0 && AllDigits(s)
    ensures Match(w + ArgText([p, s]) + rest, SizedWords, OneNumber).None?
    ensures Match(w + ArgText([p, s]) + rest, IntWords, OneNumber).None?
    ensures Match(w + ArgText([p, s]) + rest, FixedWords, TwoNumbers) == Some(Hit(0, w, [p, s]))
  {
    SizedWordsAreWords();
    IntWordsAreWords();
    FixedWordsAreWords();
    assert DigitGroups([p, s], TwoNumbers);
    MatchWord(w, [p, s], TwoNumbers, rest, SizedWords, OneNumber);
    MatchWord(w, [p, s], TwoNumbers, rest, IntWords, OneNumber);
    MatchWord(w, [p, s], TwoNumbers, rest, FixedWords, TwoNumbers);
    assert SuffixPos(w, FixedWords, 0) == Some(0);
  }

  /** `varchar(N)`, `char(N)` and the blob types with a size are string or
      binary columns whose first option is the limit N. */
  lemma SizedType(f: Field, w: string, d: string, rest: string)
    requires w in SizedWords && |d| > 0 && AllDigits(d) && '(' !in rest
    requires f.nativeType == w + ArgText([d]) + rest
    ensures MapColumn(f)
         == Column(f.name, if w in ["varchar", "char"] then "string" else "binary",
                   [("limit", SInt(Clamp(DigitsValue(d))))] + BaseOptions(f))
  {
    ParenNotEnum(w, [d], rest);
    SizedMatch(w, d, rest);
    var h := Hit(0, w, [d]);
    assert MapColumn(f) == Column(f.name, KindOf(w, "string"), WithFirst(LimitFirst(h), f));
    KindOfSized(w);
    IntValDigits(d);
    LimitDisjoint(h);
    PrefixOptions(LimitFirst(h), f);
  }

  /** The sized integer types are integer columns whose first option is the
      limit N and whose default is read as an integer, 0 when missing. */
  lemma IntType(f: Field, w: string, d: string, rest: string)
    requires w in IntWords && |d| > 0 && AllDigits(d) && '(' !in rest
    requires f.nativeType == w + ArgText([d]) + rest
    ensures MapColumn(f)
         == Column(f.name, "integer",
                   [("limit", SInt(Clamp(DigitsValue(d)))), ("default", SInt(IntDefault(f.default))),
                    ("null", SBool(!f.notNull)), ("comment", SStr(f.comment.GetOr("")))])
  {
    ParenNotEnum(w, [d], rest);
    IntMatch(w, d, rest);
    var h := Hit(0, w, [d]);
    assert MapColumn(f) == Column(f.name, KindOf(w, "integer"), IntOptions(h, f));
    KindOfInt(w);
    IntValDigits(d);
    LimitDisjoint(h);
    PrefixOptions(LimitFirst(h), f);
    IntPut(LimitFirst(h), f);
  }

  /** Replacing the default in place keeps the option order. */
  lemma IntPut(prefix: Options, f: Field)
    requires |prefix| == 1 && Disjoint(prefix)
    ensures Put(prefix + BaseOptions(f), "default", SInt(IntDefault(f.default)))
         == [prefix[0], ("default", SInt(IntDefault(f.default))),
             ("null", SBool(!f.notNull)), ("comment", SStr(f.comment.GetOr("")))]
  {
    var opts := prefix + BaseOptions(f);
    var v := SInt(IntDefault(f.default));
    assert opts[0].0 != "default" by {
      assert !IsBaseKey(prefix[0].0);
    }
    assert opts[1..] == BaseOptions(f);
    assert Put(opts, "default", v) == [opts[0]] + Put(opts[1..], "default", v);
  }

  /** `float(P,S)` and `decimal(P,S)` are decimal columns whose first
      options are the precision P and the scale S. */
  lemma FixedType(f: Field, w: string, p: string, s: string, rest: string)
    requires w in FixedWords && '(' !in rest
    requires |p| > 0 && AllDigits(p) && |s| > 0 && AllDigits(s)
    requires f.nativeType == w + ArgText([p, s]) + rest
    ensures MapColumn(f)
         == Column(f.name, "decimal",
                   [("precision", SInt(Clamp(DigitsValue(p)))), ("scale", SInt(Clamp(DigitsValue(s))))]
                   + BaseOptions(f))
  {
    ParenNotEnum(w, [p, s], rest);
    FixedMatch(w, p, s, rest);
    var h := Hit(0, w, [p, s]);
    assert MapColumn(f) == Column(f.name, KindOf(w, "decimal"), WithFirst(SizesFirst(h), f));
    KindOfFixed(w);
    IntValDigits(p);
    IntValDigits(s);
    SizesDisjoint(h);
    PrefixOptions(SizesFirst(h), f);
  }
}
