/** The administrator service: who is logged in, who is the super user,
    the per-user extension data, and the authorisation decision for a
    node. The session, the configuration, the node scan and the data store
    are inputs. */
module AdminAuth {
  import opened Common
  import opened Numeric
  import opened OrderedMap
  import opened PhpValue

  const DefaultSuper := "admin"
  const UserDataPrefix := "UserData_"

  /** What the session holds: `user.id`, `user.username` and `user.nodes`
      (the nodes the user was granted). */
  datatype Session = Session(userId: Option<Val>, userName: Option<string>, nodes: seq<string>)

  /** The access flags of one controller method. */
  datatype Rule = Rule(isauth: bool, islogin: bool)

  /** The method rules by node path. */
  type Methods = Entries<string, Rule>

  /** The per-user extension data by store name. */
  type DataStore = Entries<string, PhpArray>

  // ---------------------------------------------------------------------
  // Identity

  /** `intval` of the session's user id, 0 when there is none. */
  function UserId(s: Session): int {
    ToInt(s.userId.GetOr(Int(0)))
  }

  predicate IsLogin(s: Session) {
    UserId(s) > 0
  }

  /** The configured super user name, `admin` when none is configured. */
  function SuperName(configured: Option<string>): string {
    configured.GetOr(DefaultSuper)
  }

  /** The session's user name, "" when there is none. */
  function UserName(s: Session): string {
    s.userName.GetOr("")
  }

  predicate IsSuper(s: Session, configured: Option<string>) {
    UserName(s) == SuperName(configured)
  }

  // ---------------------------------------------------------------------
  // Underscore aliases

  /** The pattern `.*?/.*?_.*?`: a `/` followed, later on the same line, by
      an `_`. */
  predicate Matches(key: string) {
    exists i, j :: 0 <= i < j < |key| && key[i] == '/' && key[j] == '_' && '\n' !in key[i + 1..j]
  }

  function RemoveUnderscores(s: string): (r: string)
    decreases |s|
    ensures '_' !in r
    ensures forall c :: c != '_' ==> (c in r <==> c in s)
  {
    if |s| == 0 then ""
    else (if s[0] == '_' then "" else [s[0]]) + RemoveUnderscores(s[1..])
  }

  /** The key with the underscores of its second `/` segment removed. */
  function AliasKey(key: string): string
    requires '/' in key
  {
    ExplodeHasTwo(key, '/');
    var parts := Explode(key, "/");
    Join([parts[0], RemoveUnderscores(parts[1])] + parts[2..], "/")
  }

  lemma SlashIn(key: string)
    ensures Matches(key) ==> '/' in key
  {
    if Matches(key) {
      var i, j :| 0 <= i < j < |key| && key[i] == '/' && key[j] == '_' && '\n' !in key[i + 1..j];
      assert key[i] in key;
    }
  }

  /** Walk the original entries in order; every matching key also assigns
      its rule under its alias, later assignments overwriting earlier ones. */
  function AliasFrom(acc: Methods, rest: Methods): Methods
    decreases |rest|
  {
    if |rest| == 0 then acc
    else
      var k := rest[0].0;
      SlashIn(k);
      var next := if Matches(k) then Put(acc, AliasKey(k), rest[0].1) else acc;
      AliasFrom(next, rest[1..])
  }

  /** The method map with the underscore-free aliases added. */
  function Alias(methods: Methods): Methods {
    AliasFrom(methods, methods)
  }

  /** The entry at `i` writes alias `a`. */
  predicate WritesAlias(rest: Methods, i: int, a: string) {
    0 <= i < |rest| && Matches(rest[i].0) && '/' in rest[i].0 && AliasKey(rest[i].0) == a
  }

  // ---------------------------------------------------------------------
  // The decision

  /** `check($node)` for the full node `current` (the user-supplied filter
      hook is not modelled): a super user passes; a node without a rule or
      without `isauth` passes unless it demands a login the session lacks;
      an `isauth` node passes exactly when the session was granted it. */
  function Check(methods: Methods, current: string, s: Session, superName: Option<string>): bool {
    if IsSuper(s, superName) then true
    else match Get(Alias(methods), current)
      case None => true
      case Some(r) => if r.isauth then current in s.nodes else !(r.islogin && !IsLogin(s))
  }

  // ---------------------------------------------------------------------
  // User data

  /** The store name of a user's data. */
  function UserDataKey(id: int): string {
    UserDataPrefix + IntToString(id)
  }

  /** The stored data of the session's user, the empty array when none. */
  function UserData(store: DataStore, s: Session): PhpArray {
    Get(store, UserDataKey(UserId(s))).GetOr([])
  }

  /** `getUserData($field, $default)`: the whole data when no field is
      given; otherwise the field's value, or `default` when it is missing or
      null. */
  function GetUserData(store: DataStore, s: Session, field: Option<string>, default: Val): Val {
    var data := UserData(store, s);
    match field
    case None => Arr(data)
    case Some(f) =>
      var v := Get(data, KeyOf(f));
      if v.None? || v.value == Null then default else v.value
  }

  /** `setUserData($data, $replace)`: the store after saving either the
      given data alone or the old data merged with it. */
  function SetUserData(store: DataStore, s: Session, data: PhpArray, replace: bool): DataStore {
    var saved := if replace then data else ArrayMerge(UserData(store, s), data);
    Put(store, UserDataKey(UserId(s)), saved)
  }

  // ---------------------------------------------------------------------
  // Properties of identity

  /** Without a session user there is no login. */
  lemma AnonymousNotLoggedIn(nodes: seq<string>)
    ensures !IsLogin(Session(None, None, nodes))
  {
  }

  /** A user id stored as decimal text logs in exactly when it is positive. */
  lemma LoginFromText(n: int, name: Option<string>, nodes: seq<string>)
    requires PhpIntMin <= n <= PhpIntMax
    ensures IsLogin(Session(Some(Str(IntToString(n))), name, nodes)) <==> n > 0
  {
    IntValIntToString(n);
  }

  /** With no configured super name, `admin` is the super user and a session
      without a user name is not. */
  lemma DefaultSuperUser(id: Option<Val>, nodes: seq<string>)
    ensures IsSuper(Session(id, Some("admin"), nodes), None)
    ensures !IsSuper(Session(id, None, nodes), None)
  {
  }

  // ---------------------------------------------------------------------
  // Properties of aliasing

  /** Aliasing removes no key. */
  lemma {:induction false} AliasKeepsKeys(acc: Methods, rest: Methods, k: string)
    requires HasKey(acc, k)
    ensures HasKey(AliasFrom(acc, rest), k)
    decreases |rest|
  {
    if |rest| > 0 {
      var key := rest[0].0;
      SlashIn(key);
      if Matches(key) {
        var a := AliasKey(key);
        if a != k {
          PutOther(acc, a, rest[0].1, k);
        }
        AliasKeepsKeys(Put(acc, a, rest[0].1), rest[1..], k);
      } else {
        AliasKeepsKeys(acc, rest[1..], k);
      }
    }
  }

  /** A key no matching entry aliases to keeps its value. */
  lemma {:induction false} AliasUntouched(acc: Methods, rest: Methods, k: string)
    requires forall i :: 0 <= i < |rest| ==> !WritesAlias(rest, i, k)
    ensures Get(AliasFrom(acc, rest), k) == Get(acc, k)
    decreases |rest|
  {
    if |rest| > 0 {
      var key := rest[0].0;
      SlashIn(key);
      assert !WritesAlias(rest, 0, k);
      forall i | 0 <= i < |rest[1..]| ensures !WritesAlias(rest[1..], i, k) {
        assert !WritesAlias(rest, i + 1, k);
      }
      if Matches(key) {
        PutOther(acc, AliasKey(key), rest[0].1, k);
        AliasUntouched(Put(acc, AliasKey(key), rest[0].1), rest[1..], k);
      } else {
        AliasUntouched(acc, rest[1..], k);
      }
    }
  }

  /** A matching entry's rule is found under its alias, unless a later
      entry writes the same alias. */
  lemma {:induction false} AliasWritten(acc: Methods, rest: Methods, i: nat)
    requires i < |rest| && Matches(rest[i].0)
    requires '/' in rest[i].0
    requires forall j :: i < j < |rest| ==> !WritesAlias(rest, j, AliasKey(rest[i].0))
    ensures Get(AliasFrom(acc, rest), AliasKey(rest[i].0)) == Some(rest[i].1)
    decreases |rest|
  {
    var key := rest[0].0;
    SlashIn(key);
    var next := if Matches(key) then Put(acc, AliasKey(key), rest[0].1) else acc;
    if i == 0 {
      forall j | 0 <= j < |rest[1..]| ensures !WritesAlias(rest[1..], j, AliasKey(key)) {
        assert !WritesAlias(rest, j + 1, AliasKey(key));
      }
      AliasUntouched(next, rest[1..], AliasKey(key));
    } else {
      assert rest[1..][i - 1] == rest[i];
      forall j | i - 1 < j < |rest[1..]| ensures !WritesAlias(rest[1..], j, AliasKey(rest[i].0)) {
        assert !WritesAlias(rest, j + 1, AliasKey(rest[i].0));
      }
      AliasWritten(next, rest[1..], i - 1);
    }
  }

  /** Every original key survives, every matching key's rule is registered
      under its alias (last writer winning), and a key no entry aliases to
      keeps its rule. */
  lemma AliasProperties(methods: Methods, i: nat, k: string)
    requires i < |methods| && Matches(methods[i].0)
    ensures '/' in methods[i].0
    ensures HasKey(methods, k) ==> HasKey(Alias(methods), k)
    ensures (forall j :: i < j < |methods| ==> !WritesAlias(methods, j, AliasKey(methods[i].0)))
        ==> Get(Alias(methods), AliasKey(methods[i].0)) == Some(methods[i].1)
    ensures (forall j :: 0 <= j < |methods| ==> !WritesAlias(methods, j, k))
        ==> Get(Alias(methods), k) == Get(methods, k)
  {
    SlashIn(methods[i].0);
    if HasKey(methods, k) {
      AliasKeepsKeys(methods, methods, k);
    }
    if forall j :: i < j < |methods| ==> !WritesAlias(methods, j, AliasKey(methods[i].0)) {
      AliasWritten(methods, methods, i);
    }
    if forall j :: 0 <= j < |methods| ==> !WritesAlias(methods, j, k) {
      AliasUntouched(methods, methods, k);
    }
  }

  /** The alias of a key is read off its `/` pieces. */
  lemma AliasOfPieces(key: string, a: string, b: string, rest: seq<string>)
    requires '/' in key && Explode(key, "/") == [a, b] + rest
    ensures AliasKey(key) == Join([a, RemoveUnderscores(b)] + rest, "/")
  {
    assert Explode(key, "/")[2..] == rest;
  }

  /** The alias of `a/b` is `a/` followed by `b` without underscores. */
  lemma AliasTwoSegments(a: string, b: string)
    requires '/' !in a && '/' !in b
    ensures '/' in a + "/" + b
    ensures AliasKey(a + "/" + b) == a + "/" + RemoveUnderscores(b)
  {
    var key := a + "/" + b;
    assert key == a + ['/'] + b;
    assert key[|a|] == '/';
    ExplodeChar(a, '/', b);
    ExplodeNoChar(b, '/');
    assert Explode(key, "/") == [a, b] + [];
    AliasOfPieces(key, a, b, []);
    assert [a, RemoveUnderscores(b)] + [] == [a] + [RemoveUnderscores(b)];
    JoinCons(a, [RemoveUnderscores(b)], "/");
  }

  lemma ExplodeThree(a: string, b: string, c: string)
    requires '/' !in a && '/' !in b
    ensures '/' in a + "/" + (b + "/" + c)
    ensures Explode(a + "/" + (b + "/" + c), "/") == [a, b] + Explode(c, "/")
  {
    var bc := b + "/" + c;
    var key := a + "/" + bc;
    assert "/" == ['/'];
    assert key[|a|] == '/';
    ExplodeChar(a, '/', bc);
    assert Explode(key, "/") == [a] + Explode(bc, "/");
    ExplodeChar(b, '/', c);
    assert Explode(bc, "/") == [b] + Explode(c, "/");
    assert [a] + ([b] + Explode(c, "/")) == [a, b] + Explode(c, "/");
  }

  lemma JoinThree(a: string, b: string, c: string)
    ensures Join([a, b] + Explode(c, "/"), "/") == a + "/" + (b + "/" + c)
  {
    var rest := Explode(c, "/");
    assert [a, b] + rest == [a] + ([b] + rest);
    JoinCons(a, [b] + rest, "/");
    JoinCons(b, rest, "/");
    ExplodeJoin(c, "/");
  }

  /** Only the second segment changes: `a/b/c` becomes `a/b'/c`. */
  lemma AliasThreeSegments(a: string, b: string, c: string)
    requires '/' !in a && '/' !in b
    ensures '/' in a + "/" + (b + "/" + c)
    ensures AliasKey(a + "/" + (b + "/" + c)) == a + "/" + (RemoveUnderscores(b) + "/" + c)
  {
    ExplodeThree(a, b, c);
    AliasOfPieces(a + "/" + (b + "/" + c), a, b, Explode(c, "/"));
    JoinThree(a, RemoveUnderscores(b), c);
  }

  /** A key whose second segment holds an underscore matches. */
  lemma MatchesSecondSegment(a: string, b: string)
    requires '_' in b && '\n' !in b
    ensures Matches(a + "/" + b)
  {
    var key := a + "/" + b;
    var j :| 0 <= j < |b| && b[j] == '_';
    assert key[|a|] == '/';
    assert key[|a| + 1 + j] == '_';
    assert key[|a| + 1..|a| + 1 + j] == b[..j];
  }

  // ---------------------------------------------------------------------
  // Properties of the decision

  /** The super user passes every node. */
  lemma SuperPasses(methods: Methods, current: string, s: Session, superName: Option<string>)
    requires IsSuper(s, superName)
    ensures Check(methods, current, s, superName)
  {
  }

  /** For anyone else, an `isauth` node passes exactly when granted, and
      any other node passes unless it needs a login the session lacks. */
  lemma CheckByRule(methods: Methods, current: string, s: Session, superName: Option<string>, r: Rule)
    requires !IsSuper(s, superName)
    requires Get(Alias(methods), current) == Some(r)
    ensures r.isauth ==> (Check(methods, current, s, superName) <==> current in s.nodes)
    ensures !r.isauth ==> (Check(methods, current, s, superName) <==> (!r.islogin || IsLogin(s)))
  {
  }

  /** A node without a rule, even after aliasing, is open to everyone. */
  lemma UnknownNodePasses(methods: Methods, current: string, s: Session, superName: Option<string>)
    requires !HasKey(Alias(methods), current)
    ensures Check(methods, current, s, superName)
  {
  }

  /** Granting more nodes never revokes access. */
  lemma MoreNodesMorePass(methods: Methods, current: string, id: Option<Val>, name: Option<string>,
                          nodes: seq<string>, more: seq<string>, superName: Option<string>)
    requires Check(methods, current, Session(id, name, nodes), superName)
    ensures Check(methods, current, Session(id, name, nodes + more), superName)
  {
    var r := Get(Alias(methods), current);
    if r.Some? && r.value.isauth && !IsSuper(Session(id, name, nodes), superName) {
      assert current in nodes + more;
    }
  }

  /** Logging in never revokes access. */
  lemma LoginMorePass(methods: Methods, current: string, id: Option<Val>, id': Option<Val>,
                      name: Option<string>, nodes: seq<string>, superName: Option<string>)
    requires Check(methods, current, Session(id, name, nodes), superName)
    requires IsLogin(Session(id', name, nodes))
    ensures Check(methods, current, Session(id', name, nodes), superName)
  {
  }

  /** The underscore-free path of a method finds that method's rule. */
  lemma AliasedNodeChecked(methods: Methods, i: nat, s: Session, superName: Option<string>)
    requires i < |methods| && Matches(methods[i].0) && !IsSuper(s, superName)
    requires '/' in methods[i].0
    requires forall j :: i < j < |methods| ==> !WritesAlias(methods, j, AliasKey(methods[i].0))
    ensures var current := AliasKey(methods[i].0);
      Check(methods, current, s, superName)
      <==> if methods[i].1.isauth then current in s.nodes else !methods[i].1.islogin || IsLogin(s)
  {
    AliasWritten(methods, methods, i);
  }

  // ---------------------------------------------------------------------
  // Properties of user data

  /** Without a field the whole data is returned; a missing field gives the
      default. */
  lemma GetUserDataMissing(store: DataStore, s: Session, f: string, default: Val)
    requires !HasKey(UserData(store, s), KeyOf(f))
    ensures GetUserData(store, s, Some(f), default) == default
    ensures GetUserData(store, s, None, default) == Arr(UserData(store, s))
  {
  }

  /** After a replacing write the user's data is exactly the new data. */
  lemma ReplaceThenGet(store: DataStore, s: Session, data: PhpArray, default: Val)
    ensures GetUserData(SetUserData(store, s, data, true), s, None, default) == Arr(data)
  {
  }

  /** After a merging write, a string key of the new data reads its new
      value (or the default, when that value is null). */
  lemma MergeThenGetNew(store: DataStore, s: Session, data: PhpArray, f: string, default: Val)
    requires DistinctKeys(data) && HasKey(data, StrKey(f)) && KeyOf(f) == StrKey(f)
    ensures var v := Get(data, StrKey(f)).value;
      GetUserData(SetUserData(store, s, data, false), s, Some(f), default) == if v == Null then default else v
  {
    MergeStringKeyRight(UserData(store, s), data, f);
  }

  /** After a merging write, a string key only the old data has keeps its
      old value. */
  lemma MergeThenGetOld(store: DataStore, s: Session, data: PhpArray, f: string, default: Val)
    requires DistinctKeys(data) && DistinctKeys(UserData(store, s))
    requires !HasKey(data, StrKey(f)) && KeyOf(f) == StrKey(f)
    ensures GetUserData(SetUserData(store, s, data, false), s, Some(f), default)
         == GetUserData(store, s, Some(f), default)
  {
    MergeStringKeyLeft(UserData(store, s), data, f);
  }

  /** A write touches only the session user's entry. */
  lemma SetUserDataOthers(store: DataStore, s: Session, data: PhpArray, replace: bool, name: string)
    requires name != UserDataKey(UserId(s))
    ensures Get(SetUserData(store, s, data, replace), name) == Get(store, name)
  {
    PutOther(store, UserDataKey(UserId(s)), if replace then data else ArrayMerge(UserData(store, s), data), name);
  }
}
