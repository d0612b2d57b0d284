/** `array2string`: the code text a generated migration uses for a column's
    or an index's options. PHP's `var_export` prints the array over several
    lines. Three regular-expression replacements then compact it:
    1. every run of white space becomes one space;
    2. a trailing `, )` becomes ` ]`;
    3. a leading `array ( ` becomes `[ `.
    The arrays passed in have string keys and scalar values. */
module ArrayLiteral {
  import opened Common
  import opened Numeric

  /** The scalar values an option array holds. */
  datatype Scalar = SNull | SBool(b: bool) | SInt(i: int) | SStr(s: string)

  type Options = seq<(string, Scalar)>

  /** One character of a single-quoted `var_export` string. A backslash and
      a quote are escaped. A NUL byte closes the literal, is appended as the
      double-quoted `"\0"`, and a new literal is opened. */
  function EscapeChar(c: char): (r: string)
    ensures |r| >= 1
  {
    if c == '\\' then "\\\\"
    else if c == '\'' then "\\'"
    else if c == '\0' then "' . \"\\0\" . '"
    else [c]
  }

  function Escape(s: string): string
    decreases |s|
  {
    if |s| == 0 then "" else EscapeChar(s[0]) + Escape(s[1..])
  }

  /** `var_export` of a string. */
  function Quote(s: string): (r: string)
    ensures |r| >= 2 && r[0] == '\'' && r[|r| - 1] == '\''
  {
    "'" + Escape(s) + "'"
  }

  /** `var_export` of a scalar. The smallest integer has no literal of its
      own and is printed as the subtraction `-9223372036854775807-1`. */
  function ExportScalar(v: Scalar): (r: string)
    ensures |r| > 0 && !IsSpace(r[0]) && !IsSpace(r[|r| - 1])
  {
    match v
    case SNull => "NULL"
    case SBool(b) => if b then "true" else "false"
    case SInt(i) =>
      if i == PhpIntMin then "-9223372036854775807-1"
      else
        IntToStringEnds(i);
        IntToString(i)
    case SStr(s) => Quote(s)
  }

  /** One element of the exported array, without indentation or comma. */
  function EntryText(e: (string, Scalar)): (r: string)
    ensures |r| > 0 && r[0] == '\'' && !IsSpace(r[|r| - 1])
  {
    Quote(e.0) + " => " + ExportScalar(e.1)
  }

  /** The element lines: each starts a new line, is indented by two spaces
      and ends with a comma. */
  function Lines(es: Options): string
    decreases |es|
  {
    if |es| == 0 then "" else "\n  " + EntryText(es[0]) + "," + Lines(es[1..])
  }

  /** `var_export($data, true)`: `array (`, the element lines, and `)` on a
      line of its own. */
  function VarExport(es: Options): string {
    "array (" + Lines(es) + "\n)"
  }

  /** Step 1, `preg_replace('#\s+#', ' ', ...)`: every maximal run of white
      space becomes a single space. The scan remembers whether the previous
      character was white space (`run`); only the first character of a run
      produces a space. */
  function CollapseFrom(s: string, run: bool): string
    decreases |s|
  {
    if |s| == 0 then ""
    else if IsSpace(s[0]) then (if run then "" else " ") + CollapseFrom(s[1..], true)
    else [s[0]] + CollapseFrom(s[1..], false)
  }

  function Collapse(s: string): string {
    CollapseFrom(s, false)
  }

  /** No white space but single spaces. */
  predicate Compact(s: string) {
    (forall i :: 0 <= i < |s| && IsSpace(s[i]) ==> s[i] == ' ')
    && (forall i :: 0 <= i < |s| - 1 ==> !(s[i] == ' ' && s[i + 1] == ' '))
  }

  /** Step 2, `#, \)$#` replaced by ` ]`. */
  function CloseBracket(s: string): string {
    if |s| >= 3 && s[|s| - 3..] == ", )" then s[..|s| - 3] + " ]" else s
  }

  /** Step 3, `#^array \( #` replaced by `[ `. */
  function OpenBracket(s: string): string {
    if |s| >= 8 && s[..8] == "array ( " then "[ " + s[8..] else s
  }

  /** `array2string` exactly as the generators define it. */
  function Array2String(es: Options): string {
    OpenBracket(CloseBracket(Collapse(VarExport(es))))
  }

  /** Each element's text, compacted. */
  function Compacted(es: Options): seq<string> {
    seq(|es|, i requires 0 <= i < |es| => Collapse(EntryText(es[i])))
  }

  /** The short array literal the replacements aim at: the elements, each
      compacted, between `[ ` and ` ]`. */
  function ShortArray(es: Options): string {
    "[ " + Join(Compacted(es), ", ") + " ]"
  }

  // ---------------------------------------------------------------------
  // Properties of the compaction

  /** Whether the scan is inside a run of white space after reading `a`. */
  function RunAfter(a: string, run: bool): bool {
    if |a| == 0 then run else IsSpace(a[|a| - 1])
  }

  /** The scan over `a + b` is the scan over `a` followed by the scan over
      `b`, resumed in the state `a` left it in. */
  lemma {:induction false} CollapseFromAppend(a: string, b: string, run: bool)
    ensures CollapseFrom(a + b, run) == CollapseFrom(a, run) + CollapseFrom(b, RunAfter(a, run))
    decreases |a|
  {
    if |a| == 0 {
      assert a + b == b;
    } else {
      var ab := a + b;
      assert ab[0] == a[0] && ab[1..] == a[1..] + b;
      var run' := IsSpace(a[0]);
      CollapseFromCons(ab, run);
      CollapseFromCons(a, run);
      CollapseFromAppend(a[1..], b, run');
      assert RunAfter(a[1..], run') == RunAfter(a, run);
    }
  }

  /** One step of the scan: the first character's output, then the rest. */
  lemma CollapseFromCons(s: string, run: bool)
    requires |s| > 0
    ensures CollapseFrom(s, run)
         == (if IsSpace(s[0]) then (if run then "" else " ") else [s[0]]) + CollapseFrom(s[1..], IsSpace(s[0]))
  {
  }

  /** The run state matters only when the text starts with white space. */
  lemma CollapseFromStart(b: string)
    requires |b| == 0 || !IsSpace(b[0])
    ensures CollapseFrom(b, true) == CollapseFrom(b, false)
  {
  }

  /** Step 1 works piecewise when the pieces do not split a run of white
      space. */
  lemma CollapseAppend(a: string, b: string)
    requires |a| == 0 || |b| == 0 || !IsSpace(a[|a| - 1]) || !IsSpace(b[0])
    ensures Collapse(a + b) == Collapse(a) + Collapse(b)
  {
    CollapseFromAppend(a, b, false);
    if |b| > 0 && !IsSpace(b[0]) {
      CollapseFromStart(b);
    }
  }

  /** The result of step 1 holds no white space but single spaces; inside a
      run, it does not start with a space. */
  lemma {:induction false} CollapseFromCompact(s: string, run: bool)
    ensures Compact(CollapseFrom(s, run))
    ensures run ==> |CollapseFrom(s, run)| == 0 || CollapseFrom(s, run)[0] != ' '
    decreases |s|
  {
    if |s| > 0 {
      var r := CollapseFrom(s, run);
      var run' := IsSpace(s[0]);
      var rest := CollapseFrom(s[1..], run');
      CollapseFromCompact(s[1..], run');
      if run' {
        assert r == (if run then "" else " ") + rest;
      } else {
        assert r == [s[0]] + rest;
      }
    }
  }

  lemma CollapseCompact(s: string)
    ensures Compact(Collapse(s))
  {
    CollapseFromCompact(s, false);
  }

  /** Text that is already compact comes through step 1 unchanged. */
  lemma {:induction false} CollapseFromFixed(s: string, run: bool)
    requires Compact(s)
    requires run ==> |s| == 0 || s[0] != ' '
    ensures CollapseFrom(s, run) == s
    decreases |s|
  {
    if |s| > 0 {
      assert Compact(s[1..]) by {
        forall i | 0 <= i < |s[1..]| - 1 ensures !(s[1..][i] == ' ' && s[1..][i + 1] == ' ') {
          assert s[1..][i] == s[i + 1] && s[1..][i + 1] == s[i + 2];
        }
      }
      if IsSpace(s[0]) {
        assert |s| > 1 ==> s[1] != ' ';
      }
      CollapseFromFixed(s[1..], IsSpace(s[0]));
    }
  }

  lemma CollapseFixed(s: string)
    requires Compact(s)
    ensures Collapse(s) == s
  {
    CollapseFromFixed(s, false);
  }

  /** Step 1 is idempotent. */
  lemma CollapseIdempotent(s: string)
    ensures Collapse(Collapse(s)) == Collapse(s)
  {
    CollapseCompact(s);
    CollapseFixed(Collapse(s));
  }

  /** One element line compacts to a space, the compacted element and a
      comma. */
  lemma LineCollapse(e: (string, Scalar))
    ensures Collapse("\n  " + EntryText(e) + ",") == " " + Collapse(EntryText(e)) + ","
  {
    var t := EntryText(e);
    CollapseAppend("\n  ", t + ",");
    assert "\n  " + t + "," == "\n  " + (t + ",");
    CollapseAppend(t, ",");
    assert Collapse(",") == ",";
    assert Collapse("\n  ") == " ";
  }

  /** The compacted element lines, as one text. */
  function CollapsedLines(es: Options): string
    decreases |es|
  {
    if |es| == 0 then "" else " " + Collapse(EntryText(es[0])) + "," + CollapsedLines(es[1..])
  }

  lemma {:induction false} LinesCollapse(es: Options)
    ensures Collapse(Lines(es)) == CollapsedLines(es)
    decreases |es|
  {
    if |es| > 0 {
      var first := "\n  " + EntryText(es[0]) + ",";
      assert Lines(es) == first + Lines(es[1..]);
      CollapseAppend(first, Lines(es[1..]));
      LineCollapse(es[0]);
      LinesCollapse(es[1..]);
    }
  }

  lemma HeadCollapse()
    ensures Collapse("array (") == "array ("
    ensures Collapse("\n)") == " )"
  {
    var h := "array (";
    assert Compact(h) by {
      assert forall i :: 0 <= i < |h| && IsSpace(h[i]) ==> i == 5;
    }
    CollapseFixed(h);
    var c := "\n)";
    CollapseFromCons(c, false);
    CollapseFromCons(c[1..], true);
  }

  /** Step 1 applied to the whole export. */
  lemma ExportCollapse(es: Options)
    ensures Collapse(VarExport(es)) == "array (" + CollapsedLines(es) + " )"
  {
    var l := Lines(es);
    var tail := l + "\n)";
    assert VarExport(es) == "array (" + tail;
    CollapseFromAppend("array (", tail, false);
    HeadCollapse();
    assert Collapse(VarExport(es)) == "array (" + Collapse(tail);
    LinesEnd(es);
    CollapseFromAppend(l, "\n)", false);
    assert Collapse(tail) == Collapse(l) + " )";
    LinesCollapse(es);
  }

  /** The element lines never end in white space. */
  lemma LinesEnd(es: Options)
    ensures !RunAfter(Lines(es), false)
  {
    if |es| > 0 {
      LinesLast(es);
    }
  }

  lemma {:induction false} LinesLast(es: Options)
    requires |es| > 0
    ensures |Lines(es)| > 0 && Lines(es)[|Lines(es)| - 1] == ','
    decreases |es|
  {
    if |es| > 1 {
      LinesLast(es[1..]);
    }
  }

  lemma CommaSpace(x: string, j: string)
    ensures " " + x + "," + (" " + j + ",") == " " + (x + ", " + j) + ","
  {
  }

  lemma CompactedCons(es: Options)
    requires |es| > 0
    ensures Compacted(es) == [Collapse(EntryText(es[0]))] + Compacted(es[1..])
  {
    assert Compacted(es)[1..] == Compacted(es[1..]);
  }

  /** The compacted lines of a non-empty array: the elements joined by
      `, `, after a leading space and before a trailing comma. */
  lemma {:induction false} CollapsedLinesJoin(es: Options)
    requires |es| > 0
    ensures CollapsedLines(es) == " " + Join(Compacted(es), ", ") + ","
    decreases |es|
  {
    var c := Compacted(es);
    CompactedCons(es);
    if |es| > 1 {
      CollapsedLinesJoin(es[1..]);
      var j := Join(c[1..], ", ");
      JoinCons(c[0], c[1..], ", ");
      CommaSpace(c[0], j);
    } else {
      assert c == [c[0]];
    }
  }

  /** For a non-empty array, `array2string` yields the short array literal
      of the compacted elements. */
  lemma Array2StringShort(es: Options)
    requires |es| > 0
    ensures Array2String(es) == ShortArray(es)
  {
    ExportCollapse(es);
    CollapsedLinesJoin(es);
    BracketsOf(Join(Compacted(es), ", "));
  }

  /** Steps 2 and 3 on the compacted export of a non-empty array. */
  lemma BracketsOf(j: string)
    ensures OpenBracket(CloseBracket("array (" + (" " + j + ",") + " )")) == "[ " + j + " ]"
    ensures OpenBracket(CloseBracketFixed("array (" + (" " + j + ",") + " )")) == "[ " + j + " ]"
  {
    var s1 := "array (" + (" " + j + ",") + " )";
    assert s1 == "array ( " + j + ", )";
    assert s1[|s1| - 3..] == ", )";
    assert s1[..|s1| - 3] == "array ( " + j;
    var s2 := "array ( " + j + " ]";
    assert CloseBracket(s1) == s2 == CloseBracketFixed(s1);
    assert s2[..8] == "array ( ";
    assert s2[8..] == j + " ]";
  }

  /** For the empty array the second replacement finds no `, )`, and the
      result is `[ )`, which is not a PHP expression. */
  lemma Array2StringEmpty()
    ensures Array2String([]) == "[ )"
  {
    ExportCollapse([]);
    assert Collapse(VarExport([])) == "array ( )";
  }

  /** An element whose key and value hold no white space but single spaces,
      and no NUL byte, appears verbatim. */
  lemma EntryUnchanged(e: (string, Scalar))
    requires Compact(EntryText(e))
    ensures Collapse(EntryText(e)) == EntryText(e)
  {
    CollapseFixed(EntryText(e));
  }

  // ---------------------------------------------------------------------
  // The empty array

  /** Step 2 with the comma made optional, `#,? \)$#`, so that an empty
      array is closed as well. */
  function CloseBracketFixed(s: string): string {
    if |s| >= 3 && s[|s| - 3..] == ", )" then s[..|s| - 3] + " ]"
    else if |s| >= 2 && s[|s| - 2..] == " )" then s[..|s| - 2] + " ]"
    else s
  }

  /** `array2string` with the corrected second step. */
  function Array2StringFixed(es: Options): string {
    OpenBracket(CloseBracketFixed(Collapse(VarExport(es))))
  }

  /** The corrected conversion always yields a short array literal: `[ ]`
      for the empty array, and the same text as before otherwise. */
  lemma Array2StringFixedShort(es: Options)
    ensures Array2StringFixed(es) == if |es| == 0 then "[ ]" else ShortArray(es)
    ensures |es| > 0 ==> Array2StringFixed(es) == Array2String(es)
  {
    ExportCollapse(es);
    if |es| == 0 {
      var c := Collapse(VarExport(es));
      assert c == "array ( )";
      assert c[|c| - 2..] == " )" && c[..|c| - 2] == "array (";
      assert CloseBracketFixed(c) == "array ( ]";
    } else {
      Array2StringShort(es);
      CollapsedLinesJoin(es);
      BracketsOf(Join(Compacted(es), ", "));
    }
  }
}
