/** System configuration: names of the form `type.field|modifier`, values
    stored as (type, name, value) rows, and a cache of all rows grouped by
    type that is filled on the first read and dropped by every write. */
module SystemConfig {
  import opened Common
  import opened OrderedMap

  /** A parsed configuration name. */
  datatype Name = Name(kind: string, field: string, outer: string)

  /** A stored configuration row. */
  datatype ConfigRow = ConfigRow(kind: string, name: string, value: string)

  /** The fields of one type, in the order they were first seen. */
  type Table = Entries<string, string>

  /** The configuration service: its cache and the stored rows. */
  datatype Store = Store(cache: Entries<string, Table>, rows: seq<ConfigRow>)

  /** A value to store: a string, or an array whose entries are stored one
      by one. */
  datatype CfgVal = Leaf(s: string) | Group(entries: seq<(string, CfgVal)>)

  /** What a read returns: one value, or the whole `base` table. */
  datatype Answer = Text(s: string) | Whole(table: Table)

  const DefaultType := "base"
  const Raw := "raw"

  /** The type is the text before the first dot and the field part the
      text up to the next dot (further segments are ignored); without a dot
      the type is `base`. */
  function Parse(rule: string): Name {
    if '.' in rule then
      ExplodeHasTwo(rule, '.');
      var parts := Explode(rule, ".");
      Modifier(parts[0], parts[1])
    else Modifier(DefaultType, rule)
  }

  /** The field is the text before the first `|` of the field part, the
      modifier the lower-cased text between the first and the second. */
  function Modifier(kind: string, rest: string): Name {
    ExplodeHasTwo(rest + "|", '|');
    var pieces := Explode(rest + "|", "|");
    Name(kind, pieces[0], ToLower(pieces[1]))
  }

  // ---------------------------------------------------------------------
  // Escaping

  /** `htmlspecialchars` with the default quote handling: `&`, `"`, `'`,
      `<` and `>` become entities. */
  function EscapeHtmlChar(c: char): (r: string)
    ensures |r| >= 1
  {
    if c == '&' then "&amp;"
    else if c == '"' then "&quot;"
    else if c == '\'' then "&#039;"
    else if c == '<' then "&lt;"
    else if c == '>' then "&gt;"
    else [c]
  }

  function HtmlEscape(s: string): string
    decreases |s|
  {
    if |s| == 0 then "" else EscapeHtmlChar(s[0]) + HtmlEscape(s[1..])
  }

  predicate StartsWith(s: string, p: string) {
    |p| <= |s| && s[..|p|] == p
  }

  /** The inverse reading: each of the five entities becomes its character. */
  function HtmlUnescape(s: string): string
    decreases |s|
  {
    if |s| == 0 then ""
    else match EntityAt(s)
      case Some(e) => [e.0] + HtmlUnescape(s[e.1..])
      case None => [s[0]] + HtmlUnescape(s[1..])
  }

  /** The entity `s` starts with: its character and its length. */
  function EntityAt(s: string): (r: Option<(char, nat)>)
    ensures r.Some? ==> 0 < r.value.1 <= |s|
  {
    if StartsWith(s, "&amp;") then Some(('&', 5))
    else if StartsWith(s, "&quot;") then Some(('"', 6))
    else if StartsWith(s, "&#039;") then Some(('\'', 6))
    else if StartsWith(s, "&lt;") then Some(('<', 4))
    else if StartsWith(s, "&gt;") then Some(('>', 4))
    else None
  }

  /** Every value of a table escaped, keys and order unchanged: each value
      reads back as the stored one and holds no markup or quote character. */
  function EscapeAll(t: Table): (r: Table)
    ensures |r| == |t|
    ensures forall i :: 0 <= i < |t| ==> r[i].0 == t[i].0 && HtmlUnescape(r[i].1) == t[i].1
    ensures forall i, k :: 0 <= i < |r| && 0 <= k < |r[i].1| ==> r[i].1[k] !in "<>\"'"
  {
    var r := seq(|t|, i requires 0 <= i < |t| => (t[i].0, HtmlEscape(t[i].1)));
    assert forall i :: 0 <= i < |t| ==> HtmlUnescape(r[i].1) == t[i].1 by {
      forall i | 0 <= i < |t| {
        EscapeRoundTrip(t[i].1);
      }
    }
    assert forall i, k :: 0 <= i < |r| && 0 <= k < |r[i].1| ==> r[i].1[k] !in "<>\"'" by {
      forall i | 0 <= i < |r| {
        EscapeSafe(t[i].1);
      }
    }
    r
  }

  // ---------------------------------------------------------------------
  // Rows and cache

  /** The cache built from the rows: grouped by type, later rows with the
      same type and name overwrite earlier ones. */
  function Load(rows: seq<ConfigRow>): Entries<string, Table>
    decreases |rows|
  {
    if |rows| == 0 then [] else Add(Load(rows[..|rows| - 1]), rows[|rows| - 1])
  }

  function Add(c: Entries<string, Table>, r: ConfigRow): Entries<string, Table> {
    Put(c, r.kind, Put(Get(c, r.kind).GetOr([]), r.name, r.value))
  }

  /** `$data[$type][$field]`, if both are set. */
  function Lookup(c: Entries<string, Table>, t: string, f: string): Option<string> {
    match Get(c, t)
    case Some(m) => Get(m, f)
    case None => None
  }

  /** The value of the last row with this type and name. */
  function LastValue(rows: seq<ConfigRow>, t: string, f: string): Option<string>
    decreases |rows|
  {
    if |rows| == 0 then None
    else if rows[|rows| - 1].kind == t && rows[|rows| - 1].name == f then Some(rows[|rows| - 1].value)
    else LastValue(rows[..|rows| - 1], t, f)
  }

  /** Some row has this type and one of these names. */
  predicate HasRow(rows: seq<ConfigRow>, t: string, names: seq<string>) {
    exists i :: 0 <= i < |rows| && rows[i].kind == t && rows[i].name in names
  }

  /** Saving a value under a name: the rows matched are those of this type
      whose name is one of the comma-separated pieces of the name; each of
      them is rewritten to the new name and value, or a new row is added
      when there is none. For a name without a comma the only piece is the
      name itself. */
  function SaveRow(rows: seq<ConfigRow>, t: string, f: string, v: string): seq<ConfigRow> {
    var names := Explode(f, ",");
    if HasRow(rows, t, names) then Update(rows, t, names, f, v) else rows + [ConfigRow(t, f, v)]
  }

  function Update(rows: seq<ConfigRow>, t: string, names: seq<string>, f: string, v: string): (r: seq<ConfigRow>)
    ensures |r| == |rows|
  {
    seq(|rows|, i requires 0 <= i < |rows| =>
      if rows[i].kind == t && rows[i].name in names then ConfigRow(t, f, v) else rows[i])
  }

  /** The cache as a read sees it: filled from the rows when empty. */
  function Fill(s: Store): Store {
    if |s.cache| == 0 then Store(Load(s.rows), s.rows) else s
  }

  /** `get($name)`: the store after the read and the answer. An empty name
      (`""` or `"0"`) reads the whole table of its type; otherwise the
      value is returned (escaped unless the modifier is `raw`), or "" when
      it is not set. */
  function ConfigGet(s: Store, name: string): (Store, Answer) {
    var n := Parse(name);
    var s' := Fill(s);
    if EmptyString(name) then
      var m := Get(s'.cache, n.kind);
      (s', if m.None? || |m.value| == 0 then Whole([])
           else if n.outer == Raw then Whole(m.value) else Whole(EscapeAll(m.value)))
    else
      match Lookup(s'.cache, n.kind, n.field)
      case Some(x) => (s', Text(if n.outer == Raw then x else HtmlEscape(x)))
      case None => (s', Text(""))
  }

  /** `set($name, $value)`: a string is saved under the parsed type and
      field, and the cache is dropped; an array stores each entry under
      `"<field>.<key>"`, so the field becomes the type of its entries. */
  function ConfigSet(s: Store, name: string, v: CfgVal): Store
    decreases v, 1
  {
    var n := Parse(name);
    match v
    case Leaf(x) => Store([], SaveRow(s.rows, n.kind, n.field, x))
    case Group(es) => SetEntries(s, n.field, es, v)
  }

  function SetEntries(s: Store, field: string, es: seq<(string, CfgVal)>, ghost parent: CfgVal): Store
    requires forall i :: 0 <= i < |es| ==> es[i].1 < parent
    decreases parent, 0, |es|
  {
    if |es| == 0 then s
    else SetEntries(ConfigSet(s, field + "." + es[0].0, es[0].1), field, es[1..], parent)
  }

  // ---------------------------------------------------------------------
  // Properties of names

  /** A field part `f|o` names field `f` with modifier `o` lower-cased. */
  lemma ModifierOf(k: string, f: string, o: string)
    requires '|' !in f && '|' !in o
    ensures Modifier(k, f + "|" + o) == Name(k, f, ToLower(o))
  {
    assert f + "|" + o + "|" == f + ['|'] + (o + "|");
    ExplodeChar(f, '|', o + "|");
    assert o + "|" == o + ['|'] + "";
    ExplodeChar(o, '|', "");
  }

  /** A field part without `|` names that field with no modifier. */
  lemma ModifierNone(k: string, f: string)
    requires '|' !in f
    ensures Modifier(k, f) == Name(k, f, "")
  {
    assert f + "|" == f + ['|'] + "";
    ExplodeChar(f, '|', "");
    ExplodeNoChar("", '|');
  }

  /** The type ends at the first dot; the field part ends at the next. */
  lemma DotSplit(t: string, rest: string)
    requires '.' !in t
    ensures Parse(t + "." + rest) == Modifier(t, Explode(rest, ".")[0])
  {
    assert t + "." + rest == t + ['.'] + rest;
    ExplodeChar(t, '.', rest);
  }

  /** `type.field|modifier` parses back into its parts, the modifier
      lower-cased. */
  lemma ParseDotted(t: string, f: string, o: string)
    requires '.' !in t && '.' !in f && '|' !in f && '.' !in o && '|' !in o
    ensures Parse(t + "." + (f + "|" + o)) == Name(t, f, ToLower(o))
  {
    DotSplit(t, f + "|" + o);
    ExplodeNoChar(f + "|" + o, '.');
    ModifierOf(t, f, o);
  }

  /** `type.field` names the field with no modifier. */
  lemma ParseField(t: string, f: string)
    requires '.' !in t && '.' !in f && '|' !in f
    ensures Parse(t + "." + f) == Name(t, f, "")
  {
    DotSplit(t, f);
    ExplodeNoChar(f, '.');
    ModifierNone(t, f);
  }

  /** Without a dot the type is `base`. */
  lemma ParsePlain(f: string, o: string)
    requires '.' !in f && '|' !in f && '.' !in o && '|' !in o
    ensures Parse(f + "|" + o) == Name("base", f, ToLower(o))
    ensures Parse(f) == Name("base", f, "")
  {
    ModifierOf(DefaultType, f, o);
    ModifierNone(DefaultType, f);
  }

  /** Segments after the second dot are ignored. */
  lemma ParseIgnoresThird(t: string, f: string, x: string)
    requires '.' !in t && '.' !in f && '|' !in f
    ensures Parse(t + "." + (f + "." + x)) == Name(t, f, "")
  {
    DotSplit(t, f + "." + x);
    assert f + "." + x == f + ['.'] + x;
    ExplodeChar(f, '.', x);
    ModifierNone(t, f);
  }

  // ---------------------------------------------------------------------
  // Properties of escaping

  /** The escape of `c` is read back as `c`, whatever follows it. */
  lemma UnescapeStep(c: char, rest: string)
    ensures HtmlUnescape(EscapeHtmlChar(c) + rest) == [c] + HtmlUnescape(rest)
  {
    var e := EscapeHtmlChar(c);
    var s := e + rest;
    assert s[..|e|] == e && s[|e|..] == rest;
    if c == '&' {
      assert EntityAt(s) == Some(('&', 5));
    } else if c == '"' {
      assert s[1] == 'q';
      assert EntityAt(s) == Some(('"', 6));
    } else if c == '\'' {
      assert s[1] == '#';
      assert EntityAt(s) == Some(('\'', 6));
    } else if c == '<' {
      assert s[1] == 'l';
      assert EntityAt(s) == Some(('<', 4));
    } else if c == '>' {
      assert s[1] == 'g';
      assert EntityAt(s) == Some(('>', 4));
    } else {
      assert s[0] == c;
      assert EntityAt(s) == None;
    }
  }

  /** The escaped value reads back as the stored value. */
  lemma {:induction false} EscapeRoundTrip(s: string)
    ensures HtmlUnescape(HtmlEscape(s)) == s
    decreases |s|
  {
    if |s| > 0 {
      UnescapeStep(s[0], HtmlEscape(s[1..]));
      EscapeRoundTrip(s[1..]);
    }
  }

  /** An escaped value holds no markup or quote character. */
  lemma {:induction false} EscapeSafe(s: string)
    ensures forall i :: 0 <= i < |HtmlEscape(s)| ==> HtmlEscape(s)[i] !in "<>\"'"
    decreases |s|
  {
    if |s| > 0 {
      EscapeSafe(s[1..]);
      var h := EscapeHtmlChar(s[0]);
      var t := HtmlEscape(s[1..]);
      forall i | 0 <= i < |h + t| ensures (h + t)[i] !in "<>\"'" {
        if i >= |h| {
          assert (h + t)[i] == t[i - |h|];
        }
      }
    }
  }

  // ---------------------------------------------------------------------
  // Properties of the rows and the cache

  /** Adding a row to the cache sets exactly its type and name. */
  lemma AddLookup(c: Entries<string, Table>, r: ConfigRow, t: string, f: string)
    ensures Lookup(Add(c, r), t, f)
         == if r.kind == t && r.name == f then Some(r.value) else Lookup(c, t, f)
  {
    var prior := Get(c, r.kind).GetOr([]);
    if r.kind == t {
      if r.name != f {
        PutOther(prior, r.name, r.value, f);
      }
    } else {
      PutOther(c, r.kind, Put(prior, r.name, r.value), t);
    }
  }

  /** The cache holds, for every type and name, the last row's value. */
  lemma {:induction false} LoadLookup(rows: seq<ConfigRow>, t: string, f: string)
    ensures Lookup(Load(rows), t, f) == LastValue(rows, t, f)
    decreases |rows|
  {
    if |rows| > 0 {
      LoadLookup(rows[..|rows| - 1], t, f);
      AddLookup(Load(rows[..|rows| - 1]), rows[|rows| - 1], t, f);
    }
  }

  /** Updating the rows matched by `names`: a matched name other than the
      new one no longer reads, the new name reads the new value when it is
      itself matched and some row was, and every other type and name reads
      as before. */
  lemma {:induction false} UpdateLast(rows: seq<ConfigRow>, t: string, names: seq<string>, f: string, v: string,
                                      t': string, f': string)
    ensures t' == t && f' in names && f' != f ==> LastValue(Update(rows, t, names, f, v), t', f') == None
    ensures t' == t && f' == f && f in names
        ==> LastValue(Update(rows, t, names, f, v), t', f') == if HasRow(rows, t, names) then Some(v) else None
    ensures !(t' == t && (f' in names || f' == f))
        ==> LastValue(Update(rows, t, names, f, v), t', f') == LastValue(rows, t', f')
    decreases |rows|
  {
    if |rows| > 0 {
      var init := rows[..|rows| - 1];
      var last := rows[|rows| - 1];
      assert Update(rows, t, names, f, v)[..|rows| - 1] == Update(init, t, names, f, v);
      UpdateLast(init, t, names, f, v, t', f');
      assert HasRow(rows, t, names) <==> HasRow(init, t, names) || (last.kind == t && last.name in names) by {
        if HasRow(rows, t, names) && !(last.kind == t && last.name in names) {
          var i :| 0 <= i < |rows| && rows[i].kind == t && rows[i].name in names;
          assert init[i] == rows[i];
        }
        if HasRow(init, t, names) {
          var i :| 0 <= i < |init| && init[i].kind == t && init[i].name in names;
          assert rows[i] == init[i];
        }
      }
    }
  }

  /** Saving under a name without a comma sets the value under its type
      and name and leaves every other type and name as it was. */
  lemma SaveLast(rows: seq<ConfigRow>, t: string, f: string, v: string, t': string, f': string)
    requires ',' !in f
    ensures LastValue(SaveRow(rows, t, f, v), t', f')
         == if t' == t && f' == f then Some(v) else LastValue(rows, t', f')
  {
    ExplodeNoChar(f, ',');
    assert Explode(f, ",") == [f];
    if HasRow(rows, t, [f]) {
      UpdateLast(rows, t, [f], f, v, t', f');
    } else {
      assert (rows + [ConfigRow(t, f, v)])[..|rows|] == rows;
    }
  }

  /** Saving under a name with commas renames: when some row of the type
      carries one of the comma-separated pieces, every such row takes the
      whole name, so the pieces no longer read. */
  lemma SavePieces(rows: seq<ConfigRow>, t: string, f: string, v: string, g: string)
    requires HasRow(rows, t, Explode(f, ","))
    requires g in Explode(f, ",") && g != f
    ensures LastValue(SaveRow(rows, t, f, v), t, g) == None
  {
    UpdateLast(rows, t, Explode(f, ","), f, v, t, g);
  }

  /** The cache agrees with the rows, or is empty. */
  predicate Coherent(s: Store) {
    |s.cache| == 0 || s.cache == Load(s.rows)
  }

  /** The cache is invisible: a read from a coherent store answers as a
      read straight from the rows, and leaves the store coherent. */
  lemma CacheTransparent(s: Store, name: string)
    requires Coherent(s)
    ensures ConfigGet(s, name).1 == ConfigGet(Store([], s.rows), name).1
    ensures Coherent(ConfigGet(s, name).0)
    ensures ConfigGet(s, name).0.rows == s.rows
  {
  }

  /** Writing a string drops the cache; any write keeps the store coherent. */
  lemma SetCoherent(s: Store, name: string, v: CfgVal)
    requires Coherent(s)
    ensures Coherent(ConfigSet(s, name, v))
    ensures v.Leaf? ==> ConfigSet(s, name, v).cache == []
    decreases v, 1
  {
    match v
    case Leaf(x) =>
    case Group(es) => SetEntriesCoherent(s, Parse(name).field, es, v);
  }

  lemma {:induction false} SetEntriesCoherent(s: Store, field: string, es: seq<(string, CfgVal)>, parent: CfgVal)
    requires forall i :: 0 <= i < |es| ==> es[i].1 < parent
    requires Coherent(s)
    ensures Coherent(SetEntries(s, field, es, parent))
    decreases parent, 0, |es|
  {
    if |es| > 0 {
      SetCoherent(s, field + "." + es[0].0, es[0].1);
      SetEntriesCoherent(ConfigSet(s, field + "." + es[0].0, es[0].1), field, es[1..], parent);
    }
  }

  /** After a string is written, the next read reloads the rows, which
      hold the new value under its type and field and the old values
      elsewhere. */
  lemma ReadAfterSave(s: Store, t: string, f: string, x: string, t': string, f': string)
    requires '.' !in t && '.' !in f && '|' !in f && ',' !in f
    ensures Fill(ConfigSet(s, t + "." + f, Leaf(x))).cache == Load(SaveRow(s.rows, t, f, x))
    ensures Lookup(Load(SaveRow(s.rows, t, f, x)), t', f')
         == if t' == t && f' == f then Some(x) else Lookup(Load(s.rows), t', f')
  {
    ParseField(t, f);
    LoadLookup(SaveRow(s.rows, t, f, x), t', f');
    LoadLookup(s.rows, t', f');
    SaveLast(s.rows, t, f, x, t', f');
  }

  /** A value read raw right after it was written is the written value. */
  lemma GetAfterSetRaw(s: Store, t: string, f: string, x: string)
    requires '.' !in t && '.' !in f && '|' !in f && ',' !in f
    ensures ConfigGet(ConfigSet(s, t + "." + f, Leaf(x)), t + "." + (f + "|raw")).1 == Text(x)
  {
    RawRead(ConfigSet(s, t + "." + f, Leaf(x)), t, f);
    ReadAfterSave(s, t, f, x, t, f);
  }

  /** A value read plainly right after it was written is its escaped form. */
  lemma GetAfterSetEscaped(s: Store, t: string, f: string, x: string)
    requires '.' !in t && '.' !in f && '|' !in f && ',' !in f
    ensures ConfigGet(ConfigSet(s, t + "." + f, Leaf(x)), t + "." + f).1 == Text(HtmlEscape(x))
  {
    ParseField(t, f);
    ReadAfterSave(s, t, f, x, t, f);
  }

  /** Writing one name leaves every other name reading as before. */
  lemma GetAfterSetOther(s: Store, t: string, f: string, x: string, name': string)
    requires '.' !in t && '.' !in f && '|' !in f && ',' !in f
    requires var n := Parse(name'); !EmptyString(name') && (n.kind != t || n.field != f)
    ensures ConfigGet(ConfigSet(s, t + "." + f, Leaf(x)), name').1 == ConfigGet(Store([], s.rows), name').1
  {
    var n := Parse(name');
    ReadAfterSave(s, t, f, x, n.kind, n.field);
  }

  /** Writing a name with commas over a row stored under one of its pieces
      renames that row: the piece then reads as unset. */
  lemma GetAfterSetPiece(s: Store, t: string, f: string, x: string, g: string)
    requires '.' !in t && '.' !in f && '|' !in f && '.' !in g && '|' !in g
    requires HasRow(s.rows, t, Explode(f, ",")) && g in Explode(f, ",") && g != f
    ensures ConfigGet(ConfigSet(s, t + "." + f, Leaf(x)), t + "." + g).1 == Text("")
  {
    ParseField(t, f);
    ParseField(t, g);
    assert (t + "." + g)[|t|] == '.';
    LoadLookup(SaveRow(s.rows, t, f, x), t, g);
    SavePieces(s.rows, t, f, x, g);
  }

  /** An empty name (`""` or `"0"`) reads the whole table of `base`,
      escaped: the modifier of an empty name is always empty, so the raw
      form is never returned. */
  lemma WholeTableEscaped(s: Store, name: string)
    requires EmptyString(name)
    ensures var m := Get(Fill(s).cache, "base");
      ConfigGet(s, name).1 == if m.None? || |m.value| == 0 then Whole([]) else Whole(EscapeAll(m.value))
  {
    if name == "" {
      ParsePlain("", "");
    } else {
      ParsePlain("0", "");
    }
  }

  /** Writing an array of plain entries under a plain field stores every
      entry with the field as its type: `f.k|raw` then reads the last value
      given for key `k`. */
  lemma SetGroup(s: Store, f: string, es: seq<(string, CfgVal)>, i: nat)
    requires '.' !in f && '|' !in f
    requires i < |es| && Flat(es)
    ensures ConfigGet(ConfigSet(s, f, Group(es)), f + "." + (es[i].0 + "|raw")).1
         == Text(es[LastIndex(es, es[i].0)].1.s)
  {
    ParsePlain(f, "");
    var k := es[i].0;
    var s' := ConfigSet(s, f, Group(es));
    assert s' == SetEntries(s, f, es, Group(es));
    SetEntriesLast(s, f, es, Group(es), k);
    SetEntriesClear(s, f, es, Group(es));
    LastIndexIn(es, k, i);
    LoadLookup(s'.rows, f, k);
    RawRead(s', f, k);
  }

  /** `f.k|raw` reads the value cached under type `f` and name `k`. */
  lemma RawRead(s: Store, f: string, k: string)
    requires '.' !in f && '.' !in k && '|' !in k
    ensures ConfigGet(s, f + "." + (k + "|raw")).1
         == match Lookup(Fill(s).cache, f, k) case Some(x) => Text(x) case None => Text("")
  {
    assert k + "|" + "raw" == k + "|raw";
    ParseDotted(f, k, "raw");
    assert ToLower("raw") == "raw";
  }

  lemma {:induction false} SetEntriesClear(s: Store, f: string, es: seq<(string, CfgVal)>, parent: CfgVal)
    requires forall i :: 0 <= i < |es| ==> es[i].1 < parent
    requires Flat(es) && |es| > 0
    ensures SetEntries(s, f, es, parent).cache == []
    decreases |es|
  {
    if |es| > 1 {
      SetEntriesClear(ConfigSet(s, f + "." + es[0].0, es[0].1), f, es[1..], parent);
    }
  }

  /** Entries are leaves with keys that hold no dot, bar or comma. */
  predicate Flat(es: seq<(string, CfgVal)>) {
    forall i :: 0 <= i < |es| ==> es[i].1.Leaf? && '.' !in es[i].0 && '|' !in es[i].0 && ',' !in es[i].0
  }

  /** The index of the last entry with key `k` (|es| when there is none). */
  function LastIndex(es: seq<(string, CfgVal)>, k: string): (r: nat)
    decreases |es|
    ensures r <= |es|
    ensures r < |es| ==> es[r].0 == k && forall j :: r < j < |es| ==> es[j].0 != k
    ensures r == |es| ==> forall j :: 0 <= j < |es| ==> es[j].0 != k
  {
    if |es| == 0 then 0
    else if es[|es| - 1].0 == k then |es| - 1
    else
      var r := LastIndex(es[..|es| - 1], k);
      if r == |es| - 1 then |es| else r
  }

  lemma LastIndexIn(es: seq<(string, CfgVal)>, k: string, i: nat)
    requires i < |es| && es[i].0 == k
    ensures LastIndex(es, k) < |es|
  {
  }

  lemma {:induction false} SetEntriesLast(s: Store, f: string, es: seq<(string, CfgVal)>, parent: CfgVal, k: string)
    requires forall i :: 0 <= i < |es| ==> es[i].1 < parent
    requires '.' !in f && '|' !in f && Flat(es) && '.' !in k && '|' !in k
    ensures LastValue(SetEntries(s, f, es, parent).rows, f, k)
         == if LastIndex(es, k) < |es| then Some(es[LastIndex(es, k)].1.s) else LastValue(s.rows, f, k)
    decreases |es|
  {
    if |es| > 0 {
      var k0 := es[0].0;
      var s1 := ConfigSet(s, f + "." + k0, es[0].1);
      ParseField(f, k0);
      SaveLast(s.rows, f, k0, es[0].1.s, f, k);
      SetEntriesLast(s1, f, es[1..], parent, k);
      LastIndexShift(es, k);
    }
  }

  lemma LastIndexShift(es: seq<(string, CfgVal)>, k: string)
    requires |es| > 0
    ensures LastIndex(es[1..], k) < |es[1..]| ==> LastIndex(es, k) == LastIndex(es[1..], k) + 1
    ensures LastIndex(es[1..], k) == |es[1..]| ==>
      (if es[0].0 == k then LastIndex(es, k) == 0 else LastIndex(es, k) == |es|)
  {
    var r := LastIndex(es, k);
    var r1 := LastIndex(es[1..], k);
    if r1 < |es| - 1 {
      assert es[r1 + 1].0 == k;
      forall j | r1 + 1 < j < |es| ensures es[j].0 != k {
        assert es[1..][j - 1] == es[j];
      }
    } else {
      forall j | 1 <= j < |es| ensures es[j].0 != k {
        assert es[1..][j - 1] == es[j];
      }
    }
  }
}
