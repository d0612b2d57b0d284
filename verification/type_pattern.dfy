/** The column-type patterns of the migration generators, such as
    `(varchar|char)\((\d+)\)` and `(float|decimal)\((\d+),(\d+)\)`, as
    `preg_match` runs them. A match is the leftmost start position at which
    some alternative succeeds. At one position the alternatives are tried in
    order. `\d+` is greedy and must be followed by a fixed character, so it has
    only one candidate length, and the search is deterministic. */
module TypePattern {
  import opened Common
  import opened Numeric

  /** The argument list expected after the word: `\((\d+)\)` or
      `\((\d+),(\d+)\)`. */
  datatype Shape = OneNumber | TwoNumbers {
    function Count(): nat {
      if OneNumber? then 1 else 2
    }
  }

  /** A successful match: where it starts, the alternative that matched, and
      the captured digit groups. */
  datatype Hit = Hit(pos: nat, word: string, groups: seq<string>)

  /** The text `(d1)` or `(d1,d2)` for the given groups. */
  function ArgText(groups: seq<string>): string {
    "(" + Join(groups, ",") + ")"
  }

  /** Groups of the right number, each a non-empty run of digits. */
  predicate DigitGroups(groups: seq<string>, shape: Shape) {
    |groups| == shape.Count() && forall g :: g in groups ==> |g| > 0 && AllDigits(g)
  }

  predicate AllWords(alts: seq<string>) {
    forall a :: a in alts ==> AllLetters(a)
  }

  lemma ArgTextOne(g: string)
    ensures ArgText([g]) == "(" + g + ")"
  {
  }

  lemma ArgTextTwo(g1: string, g2: string)
    ensures ArgText([g1, g2]) == "(" + g1 + "," + g2 + ")"
  {
    assert [g1, g2][1..] == [g2];
    assert Join([g1, g2], ",") == g1 + "," + Join([g2], ",");
  }

  /** A non-empty run of digits from index `i` ending right before the
      character `close`; the index of `close`. */
  function DigitsThen(s: string, i: nat, close: char): (r: Option<nat>)
    ensures r.Some? ==> i < r.value < |s| && s[r.value] == close && AllDigits(s[i..r.value])
  {
    var a := DigitRun(s, i);
    if a == 0 || i + a >= |s| || s[i + a] != close then None else Some(i + a)
  }

  lemma OccursOne(s: string, i: nat, j: nat)
    requires i < j < |s| && s[i] == '(' && s[j] == ')'
    ensures OccursAt(s, i, ArgText([s[i + 1..j]]))
  {
    ArgTextOne(s[i + 1..j]);
    assert s[i..j + 1] == "(" + s[i + 1..j] + ")";
  }

  lemma OccursTwo(s: string, i: nat, j: nat, k: nat)
    requires i < j < k < |s| && s[i] == '(' && s[j] == ',' && s[k] == ')'
    ensures OccursAt(s, i, ArgText([s[i + 1..j], s[j + 1..k]]))
  {
    ArgTextTwo(s[i + 1..j], s[j + 1..k]);
    assert s[i..k + 1] == "(" + s[i + 1..j] + "," + s[j + 1..k] + ")";
  }

  /** The argument list starting at index `i`, if one is there. */
  function TailAt(s: string, i: nat, shape: Shape): (r: Option<seq<string>>)
    ensures r.Some? ==> DigitGroups(r.value, shape)
  {
    if i >= |s| || s[i] != '(' then None
    else
      match DigitsThen(s, i + 1, if shape.OneNumber? then ')' else ',')
      case None => None
      case Some(j) =>
        if shape.OneNumber? then Some([s[i + 1..j]])
        else
          match DigitsThen(s, j + 1, ')')
          case None => None
          case Some(k) => Some([s[i + 1..j], s[j + 1..k]])
  }

  /** A found argument list is really there. */
  lemma TailAtOccurs(s: string, i: nat, shape: Shape)
    ensures TailAt(s, i, shape).Some? ==> OccursAt(s, i, ArgText(TailAt(s, i, shape).value))
  {
    if TailAt(s, i, shape).Some? {
      var j := DigitsThen(s, i + 1, if shape.OneNumber? then ')' else ',').value;
      if shape.OneNumber? {
        assert TailAt(s, i, shape).value == [s[i + 1..j]];
        OccursOne(s, i, j);
      } else {
        var k := DigitsThen(s, j + 1, ')').value;
        assert TailAt(s, i, shape).value == [s[i + 1..j], s[j + 1..k]];
        OccursTwo(s, i, j, k);
      }
    }
  }

  lemma OccursConcat(s: string, p: nat, a: string, t: string)
    requires OccursAt(s, p, a) && OccursAt(s, p + |a|, t)
    ensures OccursAt(s, p, a + t)
  {
    assert s[p..p + |a + t|] == s[p..p + |a|] + s[p + |a|..p + |a| + |t|];
  }

  /** The first alternative, in list order, that matches at position `p`. */
  function AltAt(s: string, p: nat, alts: seq<string>, shape: Shape): (r: Option<Hit>)
    decreases |alts|
    ensures r.Some? ==> r.value.pos == p && r.value.word in alts
    ensures r.Some? ==> DigitGroups(r.value.groups, shape)
  {
    if |alts| == 0 then None
    else
      var a := alts[0];
      if OccursAt(s, p, a) then
        match TailAt(s, p + |a|, shape)
        case Some(g) => Some(Hit(p, a, g))
        case None => AltAt(s, p, alts[1..], shape)
      else AltAt(s, p, alts[1..], shape)
  }

  /** A match at `p` is its word followed by its argument list. */
  /** The converse of `OccursConcat`. */
  lemma OccursSplit(s: string, p: nat, a: string, t: string)
    requires OccursAt(s, p, a + t)
    ensures OccursAt(s, p, a) && OccursAt(s, p + |a|, t)
  {
    assert s[p..p + |a|] == (a + t)[..|a|];
    assert s[p + |a|..p + |a| + |t|] == (a + t)[|a|..];
  }

  lemma {:induction false} AltAtOccurs(s: string, p: nat, alts: seq<string>, shape: Shape)
    ensures var r := AltAt(s, p, alts, shape);
      r.Some? ==> OccursAt(s, p, r.value.word + ArgText(r.value.groups))
    decreases |alts|
  {
    if |alts| > 0 {
      var a := alts[0];
      var tail := TailAt(s, p + |a|, shape);
      if OccursAt(s, p, a) && tail.Some? {
        assert AltAt(s, p, alts, shape) == Some(Hit(p, a, tail.value));
        TailAtOccurs(s, p + |a|, shape);
        OccursConcat(s, p, a, ArgText(tail.value));
      } else {
        assert AltAt(s, p, alts, shape) == AltAt(s, p, alts[1..], shape);
        AltAtOccurs(s, p, alts[1..], shape);
      }
    }
  }

  /** The leftmost match at or after position `p`. */
  function SearchFrom(s: string, p: nat, alts: seq<string>, shape: Shape): (r: Option<Hit>)
    decreases |s| + 1 - p
    ensures r.Some? ==> p <= r.value.pos && AltAt(s, r.value.pos, alts, shape) == r
    ensures r.Some? ==> forall q :: p <= q < r.value.pos ==> AltAt(s, q, alts, shape).None?
    ensures r.None? ==> forall q :: p <= q <= |s| ==> AltAt(s, q, alts, shape).None?
  {
    if p > |s| then None
    else
      var here := AltAt(s, p, alts, shape);
      if here.Some? then here
      else SearchFrom(s, p + 1, alts, shape)
  }

  /** `preg_match` of the pattern on the whole subject. */
  function Match(s: string, alts: seq<string>, shape: Shape): (r: Option<Hit>)
    ensures r.Some? ==> r.value.word in alts && DigitGroups(r.value.groups, shape)
  {
    SearchFrom(s, 0, alts, shape)
  }

  /** A match is an alternative followed by an argument list of the
      pattern's shape, found in the subject at the match position. */
  lemma MatchSound(s: string, alts: seq<string>, shape: Shape)
    ensures var r := Match(s, alts, shape);
      r.Some? ==> OccursAt(s, r.value.pos, r.value.word + ArgText(r.value.groups))
  {
    var r := Match(s, alts, shape);
    if r.Some? {
      AltAtOccurs(s, r.value.pos, alts, shape);
    }
  }

  /** The reference answer for a subject `w(args)rest`: the longest suffix of
      the word `w` that is an alternative, searched from position `p`. */
  function SuffixPos(w: string, alts: seq<string>, p: nat): (r: Option<nat>)
    requires p <= |w|
    decreases |w| - p
    ensures r.Some? ==> p <= r.value <= |w| && w[r.value..] in alts
    ensures r.Some? ==> forall q :: p <= q < r.value ==> w[q..] !in alts
    ensures r.None? ==> forall q :: p <= q <= |w| ==> w[q..] !in alts
  {
    if w[p..] in alts then Some(p)
    else if p == |w| then None
    else SuffixPos(w, alts, p + 1)
  }

  /** A subject without an opening parenthesis never matches. */
  lemma {:induction false} SearchNoParen(s: string, p: nat, alts: seq<string>, shape: Shape)
    requires forall j :: p <= j < |s| ==> s[j] != '('
    ensures SearchFrom(s, p, alts, shape).None?
    decreases |s| + 1 - p
  {
    if p <= |s| {
      AltAtParen(s, p, alts, shape);
      SearchNoParen(s, p + 1, alts, shape);
    }
  }

  /** A match has an opening parenthesis right after its word. */
  lemma AltAtParen(s: string, p: nat, alts: seq<string>, shape: Shape)
    ensures var r := AltAt(s, p, alts, shape);
            r.Some? ==> p + |r.value.word| < |s| && s[p + |r.value.word|] == '('
  {
    var r := AltAt(s, p, alts, shape);
    AltAtOccurs(s, p, alts, shape);
    if r.Some? {
      var w := r.value.word;
      var t := ArgText(r.value.groups);
      OccursSplit(s, p, w, t);
      assert s[p + |w|..p + |w| + |t|][0] == t[0] == '(';
    }
  }

  /** The argument list of a match opens with a digit. */
  lemma AltAtDigit(s: string, p: nat, alts: seq<string>, shape: Shape)
    ensures var r := AltAt(s, p, alts, shape);
            r.Some? ==> var j := p + |r.value.word|; j + 1 < |s| && s[j] == '(' && IsDigit(s[j + 1])
  {
    var r := AltAt(s, p, alts, shape);
    AltAtOccurs(s, p, alts, shape);
    if r.Some? {
      var w := r.value.word;
      var t := ArgText(r.value.groups);
      OccursSplit(s, p, w, t);
      ArgTextOpens(r.value.groups, shape);
      assert s[p + |w|..p + |w| + |t|][1] == t[1];
    }
  }

  /** An argument list opens with a parenthesis and a digit. */
  lemma ArgTextOpens(groups: seq<string>, shape: Shape)
    requires DigitGroups(groups, shape)
    ensures var t := ArgText(groups); |t| > 1 && t[0] == '(' && IsDigit(t[1])
  {
    assert groups[0] in groups;
    assert Join(groups, ",")[0] == groups[0][0];
  }

  /** A subject in which no opening parenthesis is followed by a digit
      never matches: `enum('a','b')` or `datetime()` stay unmatched. */
  lemma {:induction false} SearchNoDigitArgs(s: string, p: nat, alts: seq<string>, shape: Shape)
    requires forall j :: 0 <= j < |s| - 1 && s[j] == '(' ==> !IsDigit(s[j + 1])
    ensures SearchFrom(s, p, alts, shape).None?
    decreases |s| + 1 - p
  {
    if p <= |s| {
      AltAtDigit(s, p, alts, shape);
      SearchNoDigitArgs(s, p + 1, alts, shape);
    }
  }

  lemma MatchNeedsDigits(s: string, alts: seq<string>, shape: Shape)
    requires forall j :: 0 <= j < |s| - 1 && s[j] == '(' ==> !IsDigit(s[j + 1])
    ensures Match(s, alts, shape).None?
  {
    SearchNoDigitArgs(s, 0, alts, shape);
  }

  lemma MatchNeedsParen(s: string, alts: seq<string>, shape: Shape)
    requires '(' !in s
    ensures Match(s, alts, shape).None?
  {
    SearchNoParen(s, 0, alts, shape);
  }

  /** A digit run that is followed by a non-digit is read whole. */
  lemma {:induction false} DigitRunExact(s: string, i: nat, d: string)
    requires OccursAt(s, i, d) && AllDigits(d)
    requires i + |d| < |s| && !IsDigit(s[i + |d|])
    ensures DigitRun(s, i) == |d|
    decreases |d|
  {
    if |d| > 0 {
      assert s[i] == d[0];
      assert s[i + 1..i + 1 + |d[1..]|] == d[1..];
      DigitRunExact(s, i + 1, d[1..]);
    }
  }

  /** An argument list is read back into exactly its groups, and only by a
      pattern of its own shape. */
  lemma TailAtArgs(s: string, i: nat, groups: seq<string>, gs: Shape, shape: Shape)
    requires DigitGroups(groups, gs) && OccursAt(s, i, ArgText(groups))
    ensures TailAt(s, i, shape) == if shape == gs then Some(groups) else None
  {
    var g1 := groups[0];
    assert g1 in groups;
    if gs.OneNumber? {
      assert groups == [g1];
      ArgTextOne(g1);
      TailOne(s, i, g1, shape);
    } else {
      var g2 := groups[1];
      assert g2 in groups;
      assert groups == [g1, g2];
      ArgTextTwo(g1, g2);
      TailTwo(s, i, g1, g2, shape);
    }
  }

  lemma TailOne(s: string, i: nat, g: string, shape: Shape)
    requires |g| > 0 && AllDigits(g) && OccursAt(s, i, "(" + g + ")")
    ensures TailAt(s, i, shape) == if shape.OneNumber? then Some([g]) else None
  {
    OneParts(s, i, g);
    if shape.OneNumber? {
      DigitsThenGroup(s, i + 1, g, ')');
      assert s[i + 1..i + 1 + |g|] == g;
    } else {
      DigitRunExact(s, i + 1, g);
    }
  }

  /** The pieces of an occurrence of `(g)`. */
  lemma OneParts(s: string, i: nat, g: string)
    requires OccursAt(s, i, "(" + g + ")")
    ensures s[i] == '(' && OccursAt(s, i + 1, g) && s[i + 1 + |g|] == ')'
  {
    var t := "(" + g + ")";
    assert s[i..i + |t|] == t;
    assert OccursAt(t, 1, g) by {
      assert t[1..1 + |g|] == g;
    }
    OccursWithin(s, i, t, 1, g);
    assert s[i] == t[0];
    assert s[i + 1 + |g|] == t[1 + |g|];
  }

  /** An occurrence inside an occurrence. */
  lemma OccursWithin(s: string, i: nat, t: string, k: nat, u: string)
    requires OccursAt(s, i, t) && OccursAt(t, k, u)
    ensures OccursAt(s, i + k, u)
  {
    forall m | 0 <= m < |u| ensures s[i + k + m] == u[m] {
      assert s[i..i + |t|][k + m] == s[i + k + m];
      assert t[k..k + |u|][m] == t[k + m];
    }
    assert s[i + k..i + k + |u|] == u;
  }

  /** The pieces of an occurrence of `(g1,g2)`. */
  lemma TwoParts(s: string, i: nat, g1: string, g2: string)
    requires OccursAt(s, i, "(" + g1 + "," + g2 + ")")
    ensures s[i] == '(' && OccursAt(s, i + 1, g1) && s[i + 1 + |g1|] == ','
    ensures OccursAt(s, i + 2 + |g1|, g2) && s[i + 2 + |g1| + |g2|] == ')'
  {
    var t := "(" + g1 + "," + g2 + ")";
    assert s[i..i + |t|] == t;
    assert OccursAt(t, 1, g1) by {
      assert t[1..1 + |g1|] == g1;
    }
    OccursWithin(s, i, t, 1, g1);
    assert OccursAt(t, 2 + |g1|, g2) by {
      assert t[2 + |g1|..2 + |g1| + |g2|] == g2;
    }
    OccursWithin(s, i, t, 2 + |g1|, g2);
    assert s[i] == t[0];
    assert s[i + 1 + |g1|] == t[1 + |g1|];
    assert s[i + 2 + |g1| + |g2|] == t[2 + |g1| + |g2|];
  }

  /** A digit group followed by its closing character is what `DigitsThen`
      finds. */
  lemma DigitsThenGroup(s: string, i: nat, g: string, close: char)
    requires |g| > 0 && AllDigits(g) && OccursAt(s, i, g) && !IsDigit(close)
    requires i + |g| < |s| && s[i + |g|] == close
    ensures DigitsThen(s, i, close) == Some(i + |g|)
  {
    DigitRunExact(s, i, g);
  }

  lemma TailTwo(s: string, i: nat, g1: string, g2: string, shape: Shape)
    requires |g1| > 0 && AllDigits(g1) && |g2| > 0 && AllDigits(g2)
    requires OccursAt(s, i, "(" + g1 + "," + g2 + ")")
    ensures TailAt(s, i, shape) == if shape.TwoNumbers? then Some([g1, g2]) else None
  {
    TwoParts(s, i, g1, g2);
    if shape.TwoNumbers? {
      TailTwoRead(s, i, g1, g2);
    } else {
      DigitRunExact(s, i + 1, g1);
      assert DigitsThen(s, i + 1, ')').None?;
    }
  }

  lemma TailTwoRead(s: string, i: nat, g1: string, g2: string)
    requires |g1| > 0 && AllDigits(g1) && |g2| > 0 && AllDigits(g2)
    requires i + 2 + |g1| + |g2| < |s|
    requires s[i] == '(' && OccursAt(s, i + 1, g1) && s[i + 1 + |g1|] == ','
    requires OccursAt(s, i + 2 + |g1|, g2) && s[i + 2 + |g1| + |g2|] == ')'
    ensures TailAt(s, i, TwoNumbers) == Some([g1, g2])
  {
    var j := i + 1 + |g1|;
    var k := j + 1 + |g2|;
    DigitsThenGroup(s, i + 1, g1, ',');
    DigitsThenGroup(s, j + 1, g2, ')');
    assert s[i + 1..j] == g1;
    assert s[j + 1..k] == g2;
  }

  /** No character after the opening parenthesis of an argument list is
      another opening parenthesis. */
  lemma ArgTextOneParen(groups: seq<string>, gs: Shape)
    requires DigitGroups(groups, gs)
    ensures forall j :: 0 < j < |ArgText(groups)| ==> ArgText(groups)[j] != '('
  {
    var t := ArgText(groups);
    var g1 := groups[0];
    assert g1 in groups;
    if gs.OneNumber? {
      assert groups == [g1];
      ArgTextOne(g1);
      forall j | 0 < j < |t| ensures t[j] != '(' {
        if j <= |g1| {
          assert t[j] == g1[j - 1];
        }
      }
    } else {
      var g2 := groups[1];
      assert g2 in groups;
      assert groups == [g1, g2];
      ArgTextTwo(g1, g2);
      forall j | 0 < j < |t| ensures t[j] != '(' {
        if j <= |g1| {
          assert t[j] == g1[j - 1];
        } else if |g1| + 1 < j < |t| - 1 {
          assert t[j] == g2[j - |g1| - 2];
        }
      }
    }
  }

  /** The facts about a subject `w(...` that the search inside the word
      depends on: it starts with the letters of `w`, then a parenthesis. */
  predicate WordThenParen(s: string, w: string) {
    AllLetters(w) && |w| < |s| && s[..|w|] == w && s[|w|] == '('
  }

  /** Inside the word, an alternative made of letters succeeds exactly when
      it is the rest of the word and the argument list fits the pattern. */
  lemma AltInWord(s: string, w: string, a: string, shape: Shape, p: nat)
    requires WordThenParen(s, w) && AllLetters(a) && p <= |w|
    ensures (OccursAt(s, p, a) && TailAt(s, p + |a|, shape).Some?)
        <==> (a == w[p..] && TailAt(s, |w|, shape).Some?)
  {
    if OccursAt(s, p, a) {
      if p + |a| < |w| {
        assert s[p + |a|] == s[..|w|][p + |a|] == w[p + |a|];
      } else if p + |a| == |w| {
        assert a == s[p..|w|] == w[p..];
      }
    }
    if a == w[p..] {
      assert s[p..p + |a|] == s[..|w|][p..] == w[p..];
    }
  }

  /** The head and the tail of a list of words, and membership in it. */
  lemma AllWordsSplit(alts: seq<string>)
    requires |alts| > 0 && AllWords(alts)
    ensures AllLetters(alts[0]) && AllWords(alts[1..])
    ensures forall x :: x in alts <==> x == alts[0] || x in alts[1..]
  {
    assert alts == [alts[0]] + alts[1..];
  }

  lemma AltAtUnfold(s: string, p: nat, alts: seq<string>, shape: Shape)
    requires |alts| > 0
    ensures AltAt(s, p, alts, shape)
         == if OccursAt(s, p, alts[0]) && TailAt(s, p + |alts[0]|, shape).Some?
            then Some(Hit(p, alts[0], TailAt(s, p + |alts[0]|, shape).value))
            else AltAt(s, p, alts[1..], shape)
  {
  }

  /** At a position inside the word, exactly the suffix of `w` that starts
      there can match. */
  lemma {:induction false} AltAtInWord(s: string, w: string, alts: seq<string>, shape: Shape, p: nat)
    requires WordThenParen(s, w) && AllWords(alts) && p <= |w|
    ensures AltAt(s, p, alts, shape)
         == if w[p..] in alts && TailAt(s, |w|, shape).Some?
            then Some(Hit(p, w[p..], TailAt(s, |w|, shape).value)) else None
    decreases |alts|
  {
    if |alts| > 0 {
      var a := alts[0];
      var rest := alts[1..];
      var tail := TailAt(s, |w|, shape);
      AllWordsSplit(alts);
      AltHead(s, w, alts, shape, p);
      if !(a == w[p..] && tail.Some?) {
        AltAtInWord(s, w, rest, shape, p);
      }
    }
  }

  /** The first alternative decides at a position inside the word when it
      is the rest of the word; otherwise the search moves on to the others. */
  lemma AltHead(s: string, w: string, alts: seq<string>, shape: Shape, p: nat)
    requires WordThenParen(s, w) && |alts| > 0 && AllLetters(alts[0]) && p <= |w|
    ensures var tail := TailAt(s, |w|, shape);
      AltAt(s, p, alts, shape)
      == if alts[0] == w[p..] && tail.Some? then Some(Hit(p, w[p..], tail.value))
         else AltAt(s, p, alts[1..], shape)
  {
    var a := alts[0];
    AltInWord(s, w, a, shape, p);
    AltAtUnfold(s, p, alts, shape);
    if a == w[p..] && TailAt(s, |w|, shape).Some? {
      assert p + |a| == |w|;
    }
  }

  /** The search over `w(args)rest`, with `rest` free of parentheses, stops at
      the longest suffix of `w` that is an alternative, provided the shapes
      agree; otherwise it finds nothing. */
  lemma {:induction false} SearchInWord(s: string, w: string, groups: seq<string>, gs: Shape,
                                        alts: seq<string>, shape: Shape, p: nat)
    requires WordThenParen(s, w) && AllWords(alts) && DigitGroups(groups, gs)
    requires TailAt(s, |w|, shape) == if shape == gs then Some(groups) else None
    requires forall j :: |w| < j < |s| ==> s[j] != '('
    requires p <= |w|
    ensures SearchFrom(s, p, alts, shape)
         == if shape != gs then None
            else match SuffixPos(w, alts, p)
                 case Some(q) => Some(Hit(q, w[q..], groups))
                 case None => None
    decreases |w| - p
  {
    AltAtInWord(s, w, alts, shape, p);
    if p < |w| {
      SearchInWord(s, w, groups, gs, alts, shape, p + 1);
    } else if shape != gs || w[p..] !in alts {
      SearchNoParen(s, p + 1, alts, shape);
    }
  }

  lemma WordArgsShape(w: string, groups: seq<string>, gs: Shape, rest: string)
    requires AllLetters(w) && DigitGroups(groups, gs) && '(' !in rest
    ensures var s := w + ArgText(groups) + rest;
            WordThenParen(s, w) && forall j :: |w| < j < |s| ==> s[j] != '('
    ensures forall shape: Shape :: TailAt(w + ArgText(groups) + rest, |w|, shape)
                                   == if shape == gs then Some(groups) else None
  {
    var s := w + ArgText(groups) + rest;
    var t := ArgText(groups);
    assert s[..|w|] == w;
    assert s[|w|..|w| + |t|] == t;
    ArgTextOneParen(groups, gs);
    forall j | |w| < j < |s| ensures s[j] != '(' {
      if j < |w| + |t| {
        assert s[j] == t[j - |w|];
      } else {
        assert s[j] == rest[j - |w| - |t|];
      }
    }
    forall shape: Shape ensures TailAt(s, |w|, shape) == if shape == gs then Some(groups) else None {
      TailAtArgs(s, |w|, groups, gs, shape);
    }
  }

  /** `preg_match` on a column type `w(args)rest` whose word is made of
      letters: the match is the longest suffix of `w` among the alternatives,
      with the argument list's digits as its groups. */
  lemma MatchWord(w: string, groups: seq<string>, gs: Shape, rest: string,
                  alts: seq<string>, shape: Shape)
    requires AllLetters(w) && AllWords(alts) && DigitGroups(groups, gs) && '(' !in rest
    ensures Match(w + ArgText(groups) + rest, alts, shape)
         == if shape != gs then None
            else match SuffixPos(w, alts, 0)
                 case Some(q) => Some(Hit(q, w[q..], groups))
                 case None => None
  {
    WordArgsShape(w, groups, gs, rest);
    SearchInWord(w + ArgText(groups) + rest, w, groups, gs, alts, shape, 0);
  }

  /** Any occurrence of an alternative followed by a matching argument list
      makes the pattern match, at that position or further left. */
  lemma MatchComplete(s: string, alts: seq<string>, shape: Shape, a: string, q: nat, groups: seq<string>)
    requires a in alts && DigitGroups(groups, shape) && OccursAt(s, q, a + ArgText(groups))
    ensures Match(s, alts, shape).Some?
    ensures Match(s, alts, shape).value.pos <= q
  {
    OccursSplit(s, q, a, ArgText(groups));
    TailAtArgs(s, q + |a|, groups, shape, shape);
    assert TailAt(s, q + |a|, shape) == Some(groups);
    AltAtFinds(s, q, alts, shape, a);
    SearchReaches(s, 0, q, alts, shape);
    assert Match(s, alts, shape) == SearchFrom(s, 0, alts, shape);
  }

  /** The search from `p` stops at or before any position where an
      alternative matches. */
  lemma {:induction false} SearchReaches(s: string, p: nat, q: nat, alts: seq<string>, shape: Shape)
    requires p <= q <= |s| && AltAt(s, q, alts, shape).Some?
    ensures SearchFrom(s, p, alts, shape).Some? && SearchFrom(s, p, alts, shape).value.pos <= q
    decreases q - p
  {
    if AltAt(s, p, alts, shape).None? {
      SearchReaches(s, p + 1, q, alts, shape);
    }
  }

  lemma {:induction false} AltAtFinds(s: string, p: nat, alts: seq<string>, shape: Shape, a: string)
    requires a in alts && OccursAt(s, p, a) && TailAt(s, p + |a|, shape).Some?
    ensures AltAt(s, p, alts, shape).Some?
    decreases |alts|
  {
    if alts[0] != a || !OccursAt(s, p, alts[0]) {
      assert a in alts[1..];
      AltAtFinds(s, p, alts[1..], shape, a);
    }
  }

  /** No suffix of `w` is an alternative when every alternative is
      non-empty and ends in a character other than the last one of `w`. */
  lemma SuffixPosLastChar(w: string, alts: seq<string>)
    requires |w| > 0
    requires forall a :: a in alts ==> |a| > 0 && a[|a| - 1] != w[|w| - 1]
    ensures SuffixPos(w, alts, 0).None?
  {
    forall q | 0 <= q <= |w| ensures w[q..] !in alts {
      if q < |w| {
        assert w[q..][|w[q..]| - 1] == w[|w| - 1];
      }
    }
  }
}
