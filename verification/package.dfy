/** The install-package generator: the enabled menu tree reshaped to at
    most three levels, the rows of the backup tables that hold any, and a
    template whose three placeholders are replaced by the class name, the
    packed menu and the backup JSON. Also the field fallbacks used when a
    packaged menu entry is written back as a menu row. Packing, JSON
    encoding and the database are inputs. */
module Package {
  import opened Common
  import opened PhpValue
  import opened TableConfig
  import opened VersionName

  /** A node of the menu tree as the flat-to-tree conversion delivers it. */
  datatype MenuNode = MenuNode(title: string, icon: string, url: string, node: string, params: string,
                               sub: seq<MenuNode>)

  /** A reshaped third-level entry: it never carries children. */
  datatype Leaf = Leaf(name: string, url: string, node: string, icon: string, params: string)

  /** A reshaped second-level entry; `subs` is absent when it has none. */
  datatype Middle = Middle(name: string, icon: string, url: string, node: string, params: string,
                           subs: Option<seq<Leaf>>)

  /** A reshaped top-level entry; `subs` is absent when it has none. */
  datatype Top = Top(name: string, icon: string, url: string, node: string, params: string,
                     subs: Option<seq<Middle>>)

  /** `subs` is dropped when it would be empty. */
  function NonEmpty<T>(xs: seq<T>): Option<seq<T>> {
    if |xs| == 0 then None else Some(xs)
  }

  function ShapeLeaf(n: MenuNode): Leaf {
    Leaf(n.title, n.url, n.node, n.icon, n.params)
  }

  function ShapeMiddle(n: MenuNode): Middle {
    Middle(n.title, n.icon, n.url, n.node, n.params,
           NonEmpty(seq(|n.sub|, i requires 0 <= i < |n.sub| => ShapeLeaf(n.sub[i]))))
  }

  function ShapeTop(n: MenuNode): Top {
    Top(n.title, n.icon, n.url, n.node, n.params,
        NonEmpty(seq(|n.sub|, i requires 0 <= i < |n.sub| => ShapeMiddle(n.sub[i]))))
  }

  /** The packaged menu: one top-level entry per root, in order. */
  function ShapeMenu(roots: seq<MenuNode>): (r: seq<Top>)
    ensures |r| == |roots|
  {
    seq(|roots|, i requires 0 <= i < |roots| => ShapeTop(roots[i]))
  }

  /** The backup tables whose row count is above zero, in order, each with
      its packed rows. */
  function Extra(backup: seq<string>, rowCount: string -> nat, packRows: string -> string)
    : (r: seq<(string, string)>)
    decreases |backup|
    ensures |r| <= |backup|
  {
    if |backup| == 0 then []
    else
      (if rowCount(backup[0]) > 0 then [(backup[0], packRows(backup[0]))] else [])
      + Extra(backup[1..], rowCount, packRows)
  }

  const ClassMark := "__CLASS__"
  const MenuMark := "__MENU_ZIPS__"
  const DataMark := "__DATA_JSON__"

  /** `str_replace` with three needles: each needle is replaced in turn in
      the result of the previous replacement. */
  function Substitute(template: string, className: string, menu: string, data: string): string {
    ReplaceAll(ReplaceAll(ReplaceAll(template, ClassMark, className), MenuMark, menu), DataMark, data)
  }

  datatype PackageScript = PackageScript(file: string, text: string, menu: seq<Top>,
                                         extra: seq<(string, string)>)

  /** The package for `className`. The tables to back up are the database's
      tables (minus ignored ones and the log table) that are either in
      `tables` or configured as backups. */
  function Create2Package(tables: seq<string>, className: string, roots: seq<MenuNode>,
                          allTables: seq<string>, ignore: seq<string>, configuredBackup: seq<string>,
                          rowCount: string -> nat, packRows: string -> string,
                          packMenu: seq<Top> -> string, encodeExtra: seq<(string, string)> -> string,
                          template: string, existing: seq<string>, date: string, snakeClass: string)
    : PackageScript
  {
    var menu := ShapeMenu(roots);
    var extra := Extra(Resolve([], allTables, ignore, tables, configuredBackup).backup, rowCount, packRows);
    PackageScript(FileName(existing, date, snakeClass),
                  Substitute(template, className, packMenu(menu), encodeExtra(extra)),
                  menu, extra)
  }

  /** A menu row as it is inserted when a package is installed. */
  datatype MenuRecord = MenuRecord(pid: Val, url: Val, sort: Val, icon: Val, node: Val,
                                   title: Val, params: Val, target: Val)

  /** `$a ?? $d`: the value unless it is missing or null. */
  function Coalesce(v: Val, d: Val): Val {
    if v == Null then d else v
  }

  /** The row for one menu entry under parent `pid`. A missing url falls
      back to the node and then to `#`; a missing node falls back to the url
      and then to ""; the title is the name, else the title, else "". */
  function Write2Menu(menu: PhpArray, pid: Val): MenuRecord {
    var url := Lookup(menu, "url");
    var node := Lookup(menu, "node");
    MenuRecord(
      pid,
      if IsEmpty(url) then (if IsEmpty(node) then Str("#") else node) else url,
      Coalesce(Lookup(menu, "sort"), Int(0)),
      Coalesce(Lookup(menu, "icon"), Str("")),
      if IsEmpty(node) then (if IsEmpty(url) then Str("") else url) else node,
      Coalesce(Lookup(menu, "name"), Coalesce(Lookup(menu, "title"), Str(""))),
      Coalesce(Lookup(menu, "params"), Str("")),
      Coalesce(Lookup(menu, "target"), Str("_self")))
  }

  // ---------------------------------------------------------------------
  // Properties of the menu reshaping

  /** The tree the reshaping keeps: the first three levels of `n`. */
  function Cut1(n: MenuNode): MenuNode {
    MenuNode(n.title, n.icon, n.url, n.node, n.params, [])
  }

  function Cut2(n: MenuNode): MenuNode {
    MenuNode(n.title, n.icon, n.url, n.node, n.params,
             seq(|n.sub|, i requires 0 <= i < |n.sub| => Cut1(n.sub[i])))
  }

  function Cut3(n: MenuNode): MenuNode {
    MenuNode(n.title, n.icon, n.url, n.node, n.params,
             seq(|n.sub|, i requires 0 <= i < |n.sub| => Cut2(n.sub[i])))
  }

  /** Reading a packaged entry back as a tree node (absent `subs` as none). */
  function UnLeaf(l: Leaf): MenuNode {
    MenuNode(l.name, l.icon, l.url, l.node, l.params, [])
  }

  function UnMiddle(m: Middle): MenuNode {
    var subs := m.subs.GetOr([]);
    MenuNode(m.name, m.icon, m.url, m.node, m.params, seq(|subs|, i requires 0 <= i < |subs| => UnLeaf(subs[i])))
  }

  function UnTop(t: Top): MenuNode {
    var subs := t.subs.GetOr([]);
    MenuNode(t.name, t.icon, t.url, t.node, t.params, seq(|subs|, i requires 0 <= i < |subs| => UnMiddle(subs[i])))
  }

  /** Reshaping loses nothing of the first three levels and keeps their
      order: reading the packaged menu back gives the tree cut at depth 3. */
  lemma ShapeRoundTrip(n: MenuNode)
    ensures UnTop(ShapeTop(n)) == Cut3(n)
  {
    var t := ShapeTop(n);
    forall i | 0 <= i < |n.sub| ensures UnMiddle(ShapeMiddle(n.sub[i])) == Cut2(n.sub[i]) {
      MiddleRoundTrip(n.sub[i]);
    }
  }

  lemma MiddleRoundTrip(n: MenuNode)
    ensures UnMiddle(ShapeMiddle(n)) == Cut2(n)
  {
  }

  /** No reshaped entry carries an empty `subs`; an entry has `subs`
      exactly when its node has children. */
  lemma NoEmptySubs(n: MenuNode)
    ensures ShapeTop(n).subs.Some? <==> |n.sub| > 0
    ensures ShapeTop(n).subs.Some? ==> |ShapeTop(n).subs.value| > 0
    ensures forall i :: 0 <= i < |n.sub| ==>
      (ShapeMiddle(n.sub[i]).subs.Some? <==> |n.sub[i].sub| > 0)
    ensures ShapeTop(n).name == n.title
  {
  }

  // ---------------------------------------------------------------------
  // Properties of the backup payload

  /** A table is in the payload exactly when it is a backup table with at
      least one row; its payload is its packed rows. */
  lemma {:induction false} ExtraExact(backup: seq<string>, rowCount: string -> nat, packRows: string -> string,
                                      t: string, p: string)
    ensures (t, p) in Extra(backup, rowCount, packRows)
        <==> t in backup && rowCount(t) > 0 && p == packRows(t)
    decreases |backup|
  {
    if |backup| > 0 {
      ExtraExact(backup[1..], rowCount, packRows, t, p);
      assert t in backup <==> t == backup[0] || t in backup[1..];
    }
  }

  /** The payload keeps the order of the backup tables. */
  lemma {:induction false} ExtraAppend(a: seq<string>, b: seq<string>, rowCount: string -> nat,
                                       packRows: string -> string)
    ensures Extra(a + b, rowCount, packRows) == Extra(a, rowCount, packRows) + Extra(b, rowCount, packRows)
    decreases |a|
  {
    if |a| > 0 {
      assert (a + b)[0] == a[0];
      assert (a + b)[1..] == a[1..] + b;
      ExtraAppend(a[1..], b, rowCount, packRows);
    } else {
      assert a + b == b;
    }
  }

  /** The packaged tables are backup candidates of the database: never an
      ignored table or the log table, and each one was asked for. */
  lemma PackageTables(tables: seq<string>, className: string, roots: seq<MenuNode>,
                      allTables: seq<string>, ignore: seq<string>, configuredBackup: seq<string>,
                      rowCount: string -> nat, packRows: string -> string,
                      packMenu: seq<Top> -> string, encodeExtra: seq<(string, string)> -> string,
                      template: string, existing: seq<string>, date: string, snakeClass: string,
                      t: string, p: string)
    ensures var pkg := Create2Package(tables, className, roots, allTables, ignore, configuredBackup,
                                      rowCount, packRows, packMenu, encodeExtra, template, existing,
                                      date, snakeClass);
      (t, p) in pkg.extra <==>
        && t in allTables && t !in ignore && t != "migrations"
        && (t in tables || t in configuredBackup)
        && rowCount(t) > 0 && p == packRows(t)
  {
    var r := Resolve([], allTables, ignore, tables, configuredBackup);
    ResolvedTables([], allTables, ignore, tables, configuredBackup);
    ResolvedBackup([], allTables, ignore, tables, configuredBackup);
    ExtraExact(r.backup, rowCount, packRows, t, p);
  }

  // ---------------------------------------------------------------------
  // Properties of the substitution

  /** A template without placeholders is returned unchanged. */
  lemma SubstituteAbsent(template: string, className: string, menu: string, data: string)
    requires !Contains(template, ClassMark) && !Contains(template, MenuMark) && !Contains(template, DataMark)
    ensures Substitute(template, className, menu, data) == template
  {
    ReplaceAllAbsent(template, ClassMark, className);
    ReplaceAllAbsent(template, MenuMark, menu);
    ReplaceAllAbsent(template, DataMark, data);
  }

  /** Each placeholder is replaced everywhere: the template is cut at its
      occurrences and glued with the value. */
  lemma SubstituteSteps(template: string, className: string, menu: string, data: string)
    ensures var s1 := Join(Explode(template, ClassMark), className);
      var s2 := Join(Explode(s1, MenuMark), menu);
      Substitute(template, className, menu, data) == Join(Explode(s2, DataMark), data)
  {
    ReplaceAllIsExplodeJoin(template, ClassMark, className);
    var s1 := ReplaceAll(template, ClassMark, className);
    ReplaceAllIsExplodeJoin(s1, MenuMark, menu);
    ReplaceAllIsExplodeJoin(ReplaceAll(s1, MenuMark, menu), DataMark, data);
  }

  // ---------------------------------------------------------------------
  // Properties of the menu row

  /** The url of a written menu row is never empty; its node is empty
      exactly when the entry has neither a node nor a url. */
  lemma MenuFallbacks(menu: PhpArray, pid: Val)
    ensures !IsEmpty(Write2Menu(menu, pid).url)
    ensures IsEmpty(Write2Menu(menu, pid).node)
        <==> IsEmpty(Lookup(menu, "node")) && IsEmpty(Lookup(menu, "url"))
    ensures !IsEmpty(Lookup(menu, "url")) ==> Write2Menu(menu, pid).url == Lookup(menu, "url")
    ensures !IsEmpty(Lookup(menu, "node")) ==> Write2Menu(menu, pid).node == Lookup(menu, "node")
    ensures IsEmpty(Lookup(menu, "url")) && !IsEmpty(Lookup(menu, "node"))
        ==> Write2Menu(menu, pid).url == Write2Menu(menu, pid).node
    ensures Write2Menu(menu, pid).target == Coalesce(Lookup(menu, "target"), Str("_self"))
  {
  }

  /** The entry a package stores for a top-level menu, as an array. */
  function TopArray(t: Top): PhpArray {
    [(StrKey("name"), Str(t.name)), (StrKey("icon"), Str(t.icon)), (StrKey("url"), Str(t.url)),
     (StrKey("node"), Str(t.node)), (StrKey("params"), Str(t.params))]
  }

  /** Installing a packaged top-level entry restores the title it was
      exported from, its icon and its parameters. */
  lemma ExportThenWrite(n: MenuNode, pid: Val)
    ensures var r := Write2Menu(TopArray(ShapeTop(n)), pid);
      && r.title == Str(n.title) && r.icon == Str(n.icon) && r.params == Str(n.params)
      && r.pid == pid && r.target == Str("_self")
      && (!EmptyString(n.url) ==> r.url == Str(n.url))
      && (!EmptyString(n.node) ==> r.node == Str(n.node))
  {
    var t := ShapeTop(n);
    assert t.name == n.title && t.icon == n.icon && t.url == n.url && t.node == n.node
        && t.params == n.params;
    TopWrite(t, pid);
  }

  /** The row written for a packaged top-level entry. */
  lemma TopWrite(t: Top, pid: Val)
    ensures var r := Write2Menu(TopArray(t), pid);
      && r.title == Str(t.name) && r.icon == Str(t.icon) && r.params == Str(t.params)
      && r.pid == pid && r.target == Str("_self")
      && (!EmptyString(t.url) ==> r.url == Str(t.url))
      && (!EmptyString(t.node) ==> r.node == Str(t.node))
  {
    TopLookups(t);
    TopLookupsMissing(t);
  }

  lemma TopLookups(t: Top)
    ensures var a := TopArray(t);
      && Lookup(a, "name") == Str(t.name) && Lookup(a, "icon") == Str(t.icon)
      && Lookup(a, "url") == Str(t.url) && Lookup(a, "node") == Str(t.node)
      && Lookup(a, "params") == Str(t.params)
  {
    var a := TopArray(t);
    LookupPlain(a, "name", 0);
    LookupPlain(a, "icon", 1);
    LookupPlain(a, "url", 2);
    LookupPlain(a, "node", 3);
    LookupPlain(a, "params", 4);
  }

  lemma TopLookupsMissing(t: Top)
    ensures Lookup(TopArray(t), "title") == Null && Lookup(TopArray(t), "target") == Null
  {
    LookupMissing(TopArray(t), "title");
    LookupMissing(TopArray(t), "target");
  }

  lemma LookupPlain(a: PhpArray, k: string, i: nat)
    requires i < |a| && a[i].0 == StrKey(k) && |k| > 0 && !IsDigit(k[0]) && k[0] != '-'
    requires forall j :: 0 <= j < i ==> a[j].0 != StrKey(k)
    ensures Lookup(a, k) == a[i].1
  {
    KeyOfPlain(k);
    OrderedMap.GetPrefix(a, StrKey(k), i);
  }

  lemma LookupMissing(a: PhpArray, k: string)
    requires |k| > 0 && !IsDigit(k[0]) && k[0] != '-'
    requires forall j :: 0 <= j < |a| ==> a[j].0 != StrKey(k)
    ensures Lookup(a, k) == Null
  {
    KeyOfPlain(k);
  }
}
