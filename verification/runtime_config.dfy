/** The runtime configuration file: a JSON object whose `app_map` entry
    maps domains to applications and whose `app_run` entry names the run
    mode; and the check of the run mode against the request's host. The
    file itself is an input: `decoded` is what `json_decode` returned for
    its text (None when the file is missing or is not JSON), and writing
    returns the array that is encoded back into it. */
module RuntimeConfig {
  import opened Common
  import opened OrderedMap
  import opened PhpValue

  const AppMap := "app_map"
  const AppRun := "app_run"
  const DefaultRun := "developer"
  const DemoDomain := "thinkadmin.top"

  /** The entry holds a non-empty array. */
  predicate MapOk(v: Option<Val>) {
    v.Some? && v.value.Arr? && |v.value.entries| > 0
  }

  /** The entry holds a string that is not empty in PHP's sense. */
  predicate RunOk(v: Option<Val>) {
    v.Some? && v.value.Str? && !EmptyString(v.value.s)
  }

  /** The shape every read returns: `app_map` is an array and `app_run` a
      non-empty string. */
  predicate Normalized(a: PhpArray) {
    var m := Get(a, StrKey(AppMap));
    m.Some? && m.value.Arr? && RunOk(Get(a, StrKey(AppRun)))
  }

  /** The decoded file when it is a non-empty array, else the empty array. */
  function Decoded(decoded: Option<Val>): PhpArray {
    if decoded.Some? && decoded.value.Arr? && |decoded.value.entries| > 0
    then decoded.value.entries else []
  }

  /** The configuration as read: an empty or non-array `app_map` becomes
      the empty array, an empty or non-string `app_run` becomes
      `developer`, and every other entry is kept. */
  function Normalize(decoded: Option<Val>): (r: PhpArray)
    ensures Normalized(r)
  {
    var data := Decoded(decoded);
    var withMap := if MapOk(Get(data, StrKey(AppMap))) then data else Put(data, StrKey(AppMap), Arr([]));
    PutOther(withMap, StrKey(AppRun), Str(DefaultRun), StrKey(AppMap));
    if RunOk(Get(withMap, StrKey(AppRun))) then withMap else Put(withMap, StrKey(AppRun), Str(DefaultRun))
  }

  /** `getRuntime($key)`: the whole configuration, or one entry (null when
      it is missing). */
  function GetRuntime(decoded: Option<Val>, key: Option<string>): Val {
    var data := Normalize(decoded);
    match key
    case None => Arr(data)
    case Some(k) => Lookup(data, k)
  }

  /** The values of an array, in order. */
  function Values(m: PhpArray): seq<Val> {
    seq(|m|, i requires 0 <= i < |m| => m[i].1)
  }

  /** The entries whose value is none of `drop`, in order. */
  function DropValues(m: PhpArray, drop: seq<Val>): (r: PhpArray)
    decreases |m|
    ensures forall e :: e in r <==> e in m && e.1 !in drop
    ensures Subsequence(r, m)
  {
    if |m| == 0 then []
    else
      var rest := DropValues(m[1..], drop);
      assert forall e :: e in m <==> e == m[0] || e in m[1..];
      if m[0].1 in drop then rest else [m[0]] + rest
  }

  /** `setRuntime($map, $run)`: the array written back. A given map first
      removes every old entry whose value it also holds, then is merged in
      (`array_merge`); no map empties `app_map`. No run mode keeps the old
      one. */
  function SetRuntime(decoded: Option<Val>, appMap: Option<PhpArray>, run: Option<string>): PhpArray {
    var data := Normalize(decoded);
    var prior := Get(data, StrKey(AppMap)).value.entries;
    var newRun := if run.Some? then Str(run.value) else Get(data, StrKey(AppRun)).value;
    var newMap := match appMap
      case Some(m) => Arr(ArrayMerge(DropValues(prior, Values(m)), m))
      case None => Arr([]);
    Put(Put(data, StrKey(AppRun), newRun), StrKey(AppMap), newMap)
  }

  /** The demo host is any host whose name contains the demo domain, in
      any letter case. */
  predicate IsDemoHost(host: string) {
    Contains(ToLower(host), DemoDomain)
  }

  predicate IsLocalHost(host: string) {
    host == "127.0.0.1" || host == "localhost"
  }

  /** `checkRunMode($type)` for the request's host: `dev` holds on a local
      or demo host, `demo` on a demo host, `local` on a local host, and any
      other mode always holds. */
  function CheckRunMode(mode: string, host: string): bool {
    if mode == "dev" then IsLocalHost(host) || IsDemoHost(host)
    else if mode == "demo" then IsDemoHost(host)
    else if mode == "local" then IsLocalHost(host)
    else true
  }

  // ---------------------------------------------------------------------
  // Properties of reading

  /** Reading keeps every entry other than `app_map` and `app_run`. */
  lemma NormalizeKeeps(decoded: Option<Val>, k: Key)
    requires k != StrKey(AppMap) && k != StrKey(AppRun)
    ensures Get(Normalize(decoded), k) == Get(Decoded(decoded), k)
  {
    var data := Decoded(decoded);
    var withMap := if MapOk(Get(data, StrKey(AppMap))) then data else Put(data, StrKey(AppMap), Arr([]));
    PutOther(data, StrKey(AppMap), Arr([]), k);
    PutOther(withMap, StrKey(AppRun), Str(DefaultRun), k);
  }

  /** A well-formed `app_map` and `app_run` are read as stored. */
  lemma NormalizeKeepsValid(decoded: Option<Val>)
    requires decoded.Some? && decoded.value.Arr?
    requires MapOk(Get(decoded.value.entries, StrKey(AppMap)))
    requires RunOk(Get(decoded.value.entries, StrKey(AppRun)))
    ensures Normalize(decoded) == decoded.value.entries
  {
  }

  /** Reading what was read changes nothing. */
  lemma NormalizeIdempotent(decoded: Option<Val>)
    ensures Normalize(Some(Arr(Normalize(decoded)))) == Normalize(decoded)
  {
    NormalizeFixed(Normalize(decoded));
  }

  /** Reading one entry: `app_run` is always a non-empty string and
      `app_map` always an array. */
  lemma GetRuntimeShape(decoded: Option<Val>)
    ensures var run := GetRuntime(decoded, Some(AppRun)); run.Str? && !EmptyString(run.s)
    ensures GetRuntime(decoded, Some(AppMap)).Arr?
  {
    KeyOfPlain(AppRun);
    KeyOfPlain(AppMap);
  }

  // ---------------------------------------------------------------------
  // Properties of writing

  /** The written run mode is read back: the given one when it is not
      empty, `developer` when it is, the old one when none is given. */
  lemma SetRunReadBack(decoded: Option<Val>, appMap: Option<PhpArray>, run: Option<string>)
    ensures GetRuntime(Some(Arr(SetRuntime(decoded, appMap, run))), Some(AppRun))
         == match run
            case None => GetRuntime(decoded, Some(AppRun))
            case Some(x) => if EmptyString(x) then Str(DefaultRun) else Str(x)
  {
    KeyOfPlain(AppRun);
    var data := Normalize(decoded);
    var w := SetRuntime(decoded, appMap, run);
    var newRun := if run.Some? then Str(run.value) else Get(data, StrKey(AppRun)).value;
    PutOther(Put(data, StrKey(AppRun), newRun), StrKey(AppMap), Get(w, StrKey(AppMap)).value, StrKey(AppRun));
    assert |w| > 0;
    NormalizeKeepsRun(Some(Arr(w)));
  }

  /** A valid run mode is read as stored. */
  lemma NormalizeKeepsRun(decoded: Option<Val>)
    requires decoded.Some? && decoded.value.Arr? && |decoded.value.entries| > 0
    ensures RunOk(Get(decoded.value.entries, StrKey(AppRun)))
        ==> Get(Normalize(decoded), StrKey(AppRun)) == Get(decoded.value.entries, StrKey(AppRun))
    ensures !RunOk(Get(decoded.value.entries, StrKey(AppRun)))
        ==> Get(Normalize(decoded), StrKey(AppRun)) == Some(Str(DefaultRun))
  {
    var data := decoded.value.entries;
    PutOther(data, StrKey(AppMap), Arr([]), StrKey(AppRun));
  }

  /** The `app_map` entry of a written configuration. */
  function WrittenMap(decoded: Option<Val>, appMap: Option<PhpArray>, run: Option<string>): Option<Val> {
    Get(SetRuntime(decoded, appMap, run), StrKey(AppMap))
  }

  /** The old `app_map` entries, as read before writing. */
  function OldMap(decoded: Option<Val>): PhpArray {
    Get(Normalize(decoded), StrKey(AppMap)).value.entries
  }

  /** Without a map, `app_map` is emptied. */
  lemma SetMapCleared(decoded: Option<Val>, run: Option<string>)
    ensures WrittenMap(decoded, None, run) == Some(Arr([]))
  {
  }

  /** Every string key of the given map is written with its value. */
  lemma SetMapNewKey(decoded: Option<Val>, m: PhpArray, run: Option<string>, s: string)
    requires DistinctKeys(m) && HasKey(m, StrKey(s))
    ensures WrittenMap(decoded, Some(m), run) == Some(Arr(ArrayMerge(DropValues(OldMap(decoded), Values(m)), m)))
    ensures Get(ArrayMerge(DropValues(OldMap(decoded), Values(m)), m), StrKey(s)) == Get(m, StrKey(s))
  {
    MergeStringKeyRight(DropValues(OldMap(decoded), Values(m)), m, StrKey(s).s);
  }

  /** A string key only the old map has survives exactly when its value is
      none of the new map's values. */
  lemma SetMapOldKey(decoded: Option<Val>, m: PhpArray, s: string)
    requires DistinctKeys(m) && DistinctKeys(OldMap(decoded)) && !HasKey(m, StrKey(s))
    ensures var prior := Get(OldMap(decoded), StrKey(s));
      Get(ArrayMerge(DropValues(OldMap(decoded), Values(m)), m), StrKey(s))
      == if prior.Some? && prior.value !in Values(m) then prior else None
  {
    var prior := OldMap(decoded);
    DropDistinct(prior, Values(m));
    MergeStringKeyLeft(DropValues(prior, Values(m)), m, s);
    DropGet(prior, Values(m), StrKey(s));
  }

  lemma {:induction false} DropDistinct(m: PhpArray, drop: seq<Val>)
    requires DistinctKeys(m)
    ensures DistinctKeys(DropValues(m, drop))
    decreases |m|
  {
    if |m| > 0 {
      DistinctCons(m);
      DropDistinct(m[1..], drop);
      var rest := DropValues(m[1..], drop);
      if m[0].1 !in drop {
        DropKeys(m[1..], drop, m[0].0);
        DistinctCons([m[0]] + rest);
      }
    }
  }

  /** Dropping entries adds no key. */
  lemma DropKeys(m: PhpArray, drop: seq<Val>, k: Key)
    ensures HasKey(DropValues(m, drop), k) ==> HasKey(m, k)
  {
    var rest := DropValues(m, drop);
    if HasKey(rest, k) {
      var i :| 0 <= i < |rest| && rest[i].0 == k;
      assert rest[i] in m;
      var j :| 0 <= j < |m| && m[j] == rest[i];
    }
  }

  lemma {:induction false} DropGet(m: PhpArray, drop: seq<Val>, k: Key)
    requires DistinctKeys(m)
    ensures var v := Get(m, k);
      Get(DropValues(m, drop), k) == if v.Some? && v.value !in drop then v else None
    decreases |m|
  {
    if |m| > 0 {
      DistinctCons(m);
      DropGet(m[1..], drop, k);
      if m[0].0 == k {
        var rest := DropValues(m[1..], drop);
        DropKeys(m[1..], drop, k);
      }
    }
  }

  /** A write with a non-empty run mode (or none) stores a configuration
      that the next read returns unchanged. */
  lemma SetRuntimeStable(decoded: Option<Val>, appMap: Option<PhpArray>, run: Option<string>)
    requires run.Some? ==> !EmptyString(run.value)
    ensures GetRuntime(Some(Arr(SetRuntime(decoded, appMap, run))), None) == Arr(SetRuntime(decoded, appMap, run))
  {
    var data := Normalize(decoded);
    var w := SetRuntime(decoded, appMap, run);
    var newRun := if run.Some? then Str(run.value) else Get(data, StrKey(AppRun)).value;
    var newMap := Get(w, StrKey(AppMap)).value;
    var withRun := Put(data, StrKey(AppRun), newRun);
    assert w == Put(withRun, StrKey(AppMap), newMap);
    PutOther(withRun, StrKey(AppMap), newMap, StrKey(AppRun));
    assert RunOk(Get(w, StrKey(AppRun)));
    NormalizeFixed(w);
  }

  /** A non-empty array whose `app_map` is an array and whose `app_run` is
      valid is read back unchanged. */
  lemma NormalizeFixed(a: PhpArray)
    requires HasKey(a, StrKey(AppMap)) && Get(a, StrKey(AppMap)).value.Arr?
    requires RunOk(Get(a, StrKey(AppRun)))
    ensures Normalize(Some(Arr(a))) == a
  {
    assert |a| > 0;
    if !MapOk(Get(a, StrKey(AppMap))) {
      PutSame(a, StrKey(AppMap), Arr([]));
    }
  }

  // ---------------------------------------------------------------------
  // Properties of the run mode check

  /** `dev` is the union of `local` and `demo`. */
  lemma DevIsLocalOrDemo(host: string)
    ensures CheckRunMode("dev", host) == (CheckRunMode("local", host) || CheckRunMode("demo", host))
  {
  }

  /** The demo check ignores letter case; the local check does not. */
  lemma DemoIgnoresCase(host: string)
    ensures CheckRunMode("demo", ToLower(host)) == CheckRunMode("demo", host)
    ensures !CheckRunMode("local", "LOCALHOST")
  {
    forall i | 0 <= i < |host| ensures ToLower(ToLower(host))[i] == ToLower(host)[i] {
    }
    assert ToLower(ToLower(host)) == ToLower(host);
  }

  /** Any host with the demo domain inside, in any letter case, is a demo
      host. */
  lemma DemoSubdomain(a: string, t: string, b: string)
    requires ToLower(t) == DemoDomain
    ensures CheckRunMode("demo", a + t + b)
  {
    var h := ToLower(a + t + b);
    assert h[|a|..|a| + |t|] == ToLower(t);
    assert OccursAt(h, |a|, DemoDomain);
  }

  /** A mode the check does not know always holds. */
  lemma UnknownModeHolds(mode: string, host: string)
    requires mode != "dev" && mode != "demo" && mode != "local"
    ensures CheckRunMode(mode, host)
  {
  }
}
