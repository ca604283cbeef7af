/** The status snapshot (api/status_snapshot.go): the facts of a fixed list of prefixes, loaded
    once, sorted by key and then searched in memory instead of in the store. */
module StatusSnapshots {
  import opened Lexicographic
  import opened Options

  datatype Fact = Fact(key: string, value: string)

  datatype ScanPrefix = ScanPrefix(prefix: string, required: bool)

  const STATUS_SCAN_PREFIXES: seq<ScanPrefix> := [
    ScanPrefix("observed/instance/", true),
    ScanPrefix("derived/instance/", true),
    ScanPrefix("observed/telemetry/instance/", true),
    ScanPrefix("observed/node/", true),
    ScanPrefix("observed/volume/", true),
    ScanPrefix("desired/service/", true),
    ScanPrefix("desired/cloud_identity/", true),
    ScanPrefix("desired/route/", true),
    ScanPrefix("derived/route/", true),
    ScanPrefix("derived/crash-loop/", true),
    ScanPrefix("placement/instance/", true),
    ScanPrefix("network/vip/service/", true),
    ScanPrefix("endpoint/service/", true),
    ScanPrefix("secrets/", false)]

  predicate Under(prefixes: seq<ScanPrefix>, i: nat, key: string)
    requires i < |prefixes|
  {
    prefixes[i].prefix <= key
  }

  /** No key starts with two of the prefixes. */
  ghost predicate Disjoint(prefixes: seq<ScanPrefix>) {
    forall i, j, key | 0 <= i < j < |prefixes| :: !(Under(prefixes, i, key) && Under(prefixes, j, key))
  }

  ghost predicate StrictlySorted(facts: seq<Fact>) {
    forall i, j | 0 <= i < j < |facts| :: Less(facts[i].key, facts[j].key)
  }

  ghost predicate DistinctKeys(facts: seq<Fact>) {
    forall i, j | 0 <= i < j < |facts| :: facts[i].key != facts[j].key
  }

  /** A store scan: facts under the prefix, sorted by key. */
  ghost predicate ScanOk(prefix: string, facts: seq<Fact>) {
    StrictlySorted(facts) && forall f | f in facts :: prefix <= f.key
  }

  /** The scan of a prefix over a given store content. */
  ghost predicate IsScan(store: map<string, string>, prefix: string, facts: seq<Fact>) {
    && StrictlySorted(facts)
    && forall f :: f in facts <==> f.key in store && store[f.key] == f.value && prefix <= f.key
  }

  // --- The listed prefixes are disjoint -----------------------------------------------------------

  function At(key: string, i: nat): char {
    if i < |key| then key[i] else ' '
  }

  /** Which listed prefix a key can start with, told by at most three of its characters. */
  function Section(key: string): nat {
    match At(key, 0)
    case 'o' => (match At(key, 9) case 'i' => 0 case 't' => 2 case 'n' => 3 case _ => 4)
    case 'd' =>
      if At(key, 2) == 'r'
      then (match At(key, 8) case 'i' => 1 case 'r' => 8 case _ => 9)
      else (match At(key, 8) case 's' => 5 case 'c' => 6 case _ => 7)
    case 'p' => 10
    case 'n' => 11
    case 'e' => 12
    case _ => 13
  }

  lemma {:induction false} SectionOfPrefix(i: nat, key: string)
    requires i < |STATUS_SCAN_PREFIXES| && STATUS_SCAN_PREFIXES[i].prefix <= key
    ensures Section(key) == i
  {
    var p := STATUS_SCAN_PREFIXES[i].prefix;
    assert At(key, 0) == At(p, 0) && At(key, 2) == At(p, 2);
    assert i < 10 ==> At(key, 8) == At(p, 8) && At(key, 9) == At(p, 9);
  }

  lemma {:induction false} StatusPrefixesDisjoint()
    ensures Disjoint(STATUS_SCAN_PREFIXES)
  {
    forall i, j, key | 0 <= i < j < |STATUS_SCAN_PREFIXES|
      ensures !(Under(STATUS_SCAN_PREFIXES, i, key) && Under(STATUS_SCAN_PREFIXES, j, key))
    {
      if Under(STATUS_SCAN_PREFIXES, i, key) && Under(STATUS_SCAN_PREFIXES, j, key) {
        SectionOfPrefix(i, key);
        SectionOfPrefix(j, key);
      }
    }
  }

  /** Every listed prefix is required except the last, that of the secrets. */
  lemma {:induction false} RequiredPrefixes(i: nat)
    requires i < |STATUS_SCAN_PREFIXES|
    ensures |STATUS_SCAN_PREFIXES| == 14
    ensures !STATUS_SCAN_PREFIXES[i].required <==> STATUS_SCAN_PREFIXES[i].prefix == "secrets/"
  {
  }

  // --- Loading ------------------------------------------------------------------------------------

  /** The loaded facts sorted by key, and the value of each loaded key. */
  datatype Snapshot = Snapshot(sortedFacts: seq<Fact>, factValueByKey: map<string, string>)

  /** All facts of the scans that succeeded. */
  function Loaded(scans: seq<Option<seq<Fact>>>): seq<Fact>
    decreases |scans|
  {
    if scans == [] then []
    else
      var last := scans[|scans| - 1];
      Loaded(scans[..|scans| - 1]) + if last.Some? then last.value else []
  }

  /** One outcome per prefix: None for a failed scan. */
  ghost predicate ScansOk(prefixes: seq<ScanPrefix>, scans: seq<Option<seq<Fact>>>) {
    |scans| == |prefixes| && forall i | 0 <= i < |scans| && scans[i].Some? :: ScanOk(prefixes[i].prefix, scans[i].value)
  }

  ghost predicate RequiredFailed(prefixes: seq<ScanPrefix>, scans: seq<Option<seq<Fact>>>)
    requires |scans| == |prefixes|
  {
    exists i :: 0 <= i < |scans| && scans[i].None? && prefixes[i].required
  }

  /** The snapshot holds exactly these facts, once each. */
  ghost predicate Indexes(snapshot: Snapshot, facts: seq<Fact>) {
    && StrictlySorted(snapshot.sortedFacts)
    && (forall f :: f in snapshot.sortedFacts <==> f in facts)
    && Values(snapshot.factValueByKey, facts)
  }

  ghost predicate Values(values: map<string, string>, facts: seq<Fact>) {
    && (forall f | f in facts :: f.key in values && values[f.key] == f.value)
    && (forall k | k in values :: Fact(k, values[k]) in facts)
  }

  lemma {:induction false} LoadedFrom(prefixes: seq<ScanPrefix>, scans: seq<Option<seq<Fact>>>, f: Fact)
    requires |scans| <= |prefixes|
    ensures f in Loaded(scans) <==> exists i :: 0 <= i < |scans| && scans[i].Some? && f in scans[i].value
    decreases |scans|
  {
    if scans != [] {
      var front := scans[..|scans| - 1];
      LoadedFrom(prefixes, front, f);
      assert forall i | 0 <= i < |front| :: front[i] == scans[i];
    }
  }

  lemma {:induction false} LoadedUnder(prefixes: seq<ScanPrefix>, scans: seq<Option<seq<Fact>>>, n: nat, f: Fact)
    requires ScansOk(prefixes, scans) && n <= |scans| && f in Loaded(scans[..n])
    ensures exists i :: 0 <= i < n && Under(prefixes, i, f.key)
  {
    LoadedFrom(prefixes, scans[..n], f);
    var i :| 0 <= i < n && scans[..n][i].Some? && f in scans[..n][i].value;
    assert scans[i] == scans[..n][i] && Under(prefixes, i, f.key);
  }

  /** Scans of disjoint prefixes never load a key twice. */
  lemma {:induction false} LoadedDistinct(prefixes: seq<ScanPrefix>, scans: seq<Option<seq<Fact>>>, n: nat)
    requires ScansOk(prefixes, scans) && Disjoint(prefixes) && n <= |scans|
    ensures DistinctKeys(Loaded(scans[..n]))
    decreases n
  {
    if n > 0 {
      LoadedDistinct(prefixes, scans, n - 1);
      assert scans[..n][..n - 1] == scans[..n - 1];
      if scans[n - 1].Some? {
        var last := scans[n - 1].value;
        forall f, g | f in Loaded(scans[..n - 1]) && g in last ensures f.key != g.key {
          LoadedUnder(prefixes, scans, n - 1, f);
          assert Under(prefixes, n - 1, g.key);
        }
        SortedDistinct(last);
        JoinedDistinct(Loaded(scans[..n - 1]), last);
      } else {
        assert Loaded(scans[..n]) == Loaded(scans[..n - 1]);
      }
    } else {
      assert scans[..0] == [];
    }
  }

  lemma {:induction false} SortedDistinct(facts: seq<Fact>)
    requires StrictlySorted(facts)
    ensures DistinctKeys(facts)
  {
    forall i, j | 0 <= i < j < |facts| ensures facts[i].key != facts[j].key {
      Irreflexive(facts[i].key);
    }
  }

  lemma {:induction false} JoinedDistinct(a: seq<Fact>, b: seq<Fact>)
    requires DistinctKeys(a) && DistinctKeys(b) && forall f, g | f in a && g in b :: f.key != g.key
    ensures DistinctKeys(a + b)
  {
  }

  /** The library sort: facts of different keys in key order. */
  method SortByKey(facts: seq<Fact>) returns (sorted: seq<Fact>)
    requires DistinctKeys(facts)
    ensures StrictlySorted(sorted) && forall f :: f in sorted <==> f in facts
  {
    sorted := [];
    for n := 0 to |facts|
      invariant StrictlySorted(sorted) && forall f :: f in sorted <==> f in facts[..n]
    {
      sorted := Insert(sorted, facts[n]);
      assert facts[..n + 1] == facts[..n] + [facts[n]];
    }
    assert facts[..|facts|] == facts;
  }

  method Insert(sorted: seq<Fact>, fact: Fact) returns (longer: seq<Fact>)
    requires StrictlySorted(sorted) && forall f | f in sorted :: f.key != fact.key
    ensures StrictlySorted(longer) && forall f :: f in longer <==> f in sorted || f == fact
  {
    var i := SearchKey(sorted, fact.key);
    longer := sorted[..i] + [fact] + sorted[i..];
    if i < |sorted| { Total(fact.key, sorted[i].key); }
    assert forall j | i <= j < |sorted| :: Less(fact.key, sorted[j].key) by {
      forall j | i <= j < |sorted| ensures Less(fact.key, sorted[j].key) { Total(fact.key, sorted[j].key); }
    }
    assert sorted == sorted[..i] + sorted[i..];
  }

  /** Binary search: the first index whose key is not below `key`. */
  method SearchKey(facts: seq<Fact>, key: string) returns (start: nat)
    requires StrictlySorted(facts)
    ensures start <= |facts|
    ensures forall i | 0 <= i < start :: Less(facts[i].key, key)
    ensures forall i | start <= i < |facts| :: !Less(facts[i].key, key)
  {
    start := 0;
    var end := |facts|;
    while start < end
      invariant 0 <= start <= end <= |facts|
      invariant forall i | 0 <= i < start :: Less(facts[i].key, key)
      invariant forall i | end <= i < |facts| :: !Less(facts[i].key, key)
    {
      var middle := (start + end) / 2;
      if Less(facts[middle].key, key) {
        forall i | 0 <= i < middle ensures Less(facts[i].key, key) { Transitive(facts[i].key, facts[middle].key, key); }
        start := middle + 1;
      } else {
        forall i | middle < i < |facts| ensures !Less(facts[i].key, key) {
          if Less(facts[i].key, key) { Transitive(facts[middle].key, facts[i].key, key); }
        }
        end := middle;
      }
    }
  }

  /** Loading fails exactly when a required scan failed; otherwise the snapshot indexes
      every fact that was scanned. */
  method LoadStatusFactSnapshot(prefixes: seq<ScanPrefix>, scans: seq<Option<seq<Fact>>>) returns (r: Option<Snapshot>)
    requires ScansOk(prefixes, scans) && Disjoint(prefixes)
    ensures r.None? <==> RequiredFailed(prefixes, scans)
    ensures r.Some? ==> Indexes(r.value, Loaded(scans))
  {
    var facts: seq<Fact>, values: map<string, string> := [], map[];
    for n := 0 to |scans|
      invariant facts == Loaded(scans[..n]) && Values(values, facts)
      invariant forall i | 0 <= i < n && scans[i].None? :: !prefixes[i].required
    {
      assert scans[..n + 1][..n] == scans[..n];
      LoadedDistinct(prefixes, scans, n + 1);
      match scans[n]
      case None =>
        if prefixes[n].required { return None; }
      case Some(scanned) =>
        values := AddValues(facts, values, scanned);
        facts := facts + scanned;
    }
    assert scans[..|scans|] == scans;
    LoadedDistinct(prefixes, scans, |scans|);
    var sorted := SortByKey(facts);
    return Some(Snapshot(sorted, values));
  }

  method AddValues(facts: seq<Fact>, values: map<string, string>, scanned: seq<Fact>) returns (next: map<string, string>)
    requires Values(values, facts) && DistinctKeys(facts + scanned)
    ensures Values(next, facts + scanned)
  {
    next := values;
    for m := 0 to |scanned|
      invariant Values(next, facts + scanned[..m])
    {
      var fact := scanned[m];
      FreshKey(facts, scanned, m);
      assert facts + scanned[..m + 1] == facts + scanned[..m] + [fact];
      next := next[fact.key := fact.value];
    }
    assert scanned[..|scanned|] == scanned;
  }

  lemma {:induction false} FreshKey(facts: seq<Fact>, scanned: seq<Fact>, m: nat)
    requires DistinctKeys(facts + scanned) && m < |scanned|
    ensures forall f | f in facts + scanned[..m] :: f.key != scanned[m].key
  {
    var all := facts + scanned;
    assert all[|facts| + m] == scanned[m];
    forall f | f in facts + scanned[..m] ensures f.key != scanned[m].key {
      var i :| 0 <= i < |facts| + m && (facts + scanned[..m])[i] == f;
      assert all[i] == f;
    }
  }

  // --- Lookups ------------------------------------------------------------------------------------

  ghost predicate Covered(prefixes: seq<ScanPrefix>, key: string) {
    exists i :: 0 <= i < |prefixes| && Under(prefixes, i, key)
  }

  /** False stands for the panic of a lookup outside every prefix. */
  method RequireCoveredKey(prefixes: seq<ScanPrefix>, key: string) returns (covered: bool)
    ensures covered <==> Covered(prefixes, key)
  {
    for i := 0 to |prefixes|
      invariant forall j | 0 <= j < i :: !Under(prefixes, j, key)
    {
      if Under(prefixes, i, key) { return true; }
    }
    return false;
  }

  /** None stands for the panic; otherwise the loaded value of the key, if there is one. */
  method Value(prefixes: seq<ScanPrefix>, snapshot: Snapshot, key: string) returns (r: Option<Option<string>>)
    ensures r == if Covered(prefixes, key) then Some(Lookup(snapshot.factValueByKey, key)) else None
  {
    var covered := RequireCoveredKey(prefixes, key);
    if !covered { return None; }
    return Some(Lookup(snapshot.factValueByKey, key));
  }

  /** The facts whose key starts with the prefix, in key order. */
  ghost predicate IsRange(facts: seq<Fact>, prefix: string, range: seq<Fact>) {
    StrictlySorted(range) && forall f :: f in range <==> f in facts && prefix <= f.key
  }

  method FactsUnder(prefixes: seq<ScanPrefix>, snapshot: Snapshot, prefix: string) returns (r: Option<seq<Fact>>)
    requires StrictlySorted(snapshot.sortedFacts)
    ensures r.None? <==> !Covered(prefixes, prefix)
    ensures r.Some? ==> IsRange(snapshot.sortedFacts, prefix, r.value)
  {
    var covered := RequireCoveredKey(prefixes, prefix);
    if !covered { return None; }
    var facts := snapshot.sortedFacts;
    var start := SearchKey(facts, prefix);
    var end := start;
    while end < |facts| && prefix <= facts[end].key
      invariant start <= end <= |facts|
      invariant forall i | start <= i < end :: prefix <= facts[i].key
    {
      end := end + 1;
    }
    RangeIsAll(facts, prefix, start, end);
    return Some(facts[start..end]);
  }

  /** Nothing before the first key at or above the prefix, and nothing after the first key
      from there on without it, starts with the prefix. */
  lemma {:induction false} RangeIsAll(facts: seq<Fact>, prefix: string, start: nat, end: nat)
    requires StrictlySorted(facts) && start <= end <= |facts|
    requires forall i | 0 <= i < start :: Less(facts[i].key, prefix)
    requires forall i | start <= i < |facts| :: !Less(facts[i].key, prefix)
    requires forall i | start <= i < end :: prefix <= facts[i].key
    requires end < |facts| ==> !(prefix <= facts[end].key)
    ensures IsRange(facts, prefix, facts[start..end])
  {
    forall i | 0 <= i < |facts| && prefix <= facts[i].key ensures start <= i < end {
      if i < start { PrefixFirst(prefix, facts[i].key); }
      if end < i {
        Asymmetric(facts[end].key, facts[i].key);
        PrefixInterval(prefix, facts[end].key, facts[i].key);
      }
    }
    assert forall i | start <= i < end :: facts[i] == facts[start..end][i - start];
  }

  // --- Agreement with the store -------------------------------------------------------------------

  /** Two strictly sorted sequences of the same facts are the same sequence. */
  lemma {:induction false} SortedUnique(a: seq<Fact>, b: seq<Fact>)
    requires StrictlySorted(a) && StrictlySorted(b) && forall f :: f in a <==> f in b
    ensures a == b
    decreases |a|
  {
    assert b != [] ==> b[0] in b;
    if a != [] {
      assert a[0] in a;
      FirstIsLeast(a, b[0]);
      FirstIsLeast(b, a[0]);
      if Less(a[0].key, b[0].key) { Asymmetric(a[0].key, b[0].key); }
      RestSame(a, b);
      SortedUnique(a[1..], b[1..]);
      assert a == [a[0]] + a[1..] && b == [b[0]] + b[1..];
    }
  }

  lemma {:induction false} FirstIsLeast(a: seq<Fact>, f: Fact)
    requires StrictlySorted(a) && f in a
    ensures f == a[0] || Less(a[0].key, f.key)
  {
    var i :| 0 <= i < |a| && a[i] == f;
  }

  lemma {:induction false} RestSame(a: seq<Fact>, b: seq<Fact>)
    requires StrictlySorted(a) && StrictlySorted(b) && a != [] && b != [] && a[0] == b[0]
    requires forall f :: f in a <==> f in b
    ensures forall f :: f in a[1..] <==> f in b[1..]
  {
    Irreflexive(a[0].key);
    assert forall f :: f in a[1..] <==> f in a && f != a[0] by { TailFacts(a); }
    assert forall f :: f in b[1..] <==> f in b && f != b[0] by { TailFacts(b); }
  }

  lemma {:induction false} TailFacts(a: seq<Fact>)
    requires StrictlySorted(a) && a != []
    ensures forall f :: f in a[1..] <==> f in a && f != a[0]
  {
    Irreflexive(a[0].key);
    forall f ensures f in a[1..] <==> f in a && f != a[0] {
      assert a == [a[0]] + a[1..];
      if f in a[1..] {
        var i :| 0 <= i < |a| - 1 && a[1..][i] == f;
        assert a[i + 1] == f;
      }
    }
  }

  /** Every scan that succeeded returned the content of one store. */
  ghost predicate ScansOf(store: map<string, string>, prefixes: seq<ScanPrefix>, scans: seq<Option<seq<Fact>>>) {
    |scans| == |prefixes| && forall i | 0 <= i < |scans| && scans[i].Some? :: IsScan(store, prefixes[i].prefix, scans[i].value)
  }

  /** Over an unchanging store, under a prefix whose scan succeeded, what the snapshot holds
      is what the store holds. */
  lemma {:induction false} LoadedAgrees(store: map<string, string>, prefixes: seq<ScanPrefix>,
                                        scans: seq<Option<seq<Fact>>>, i: nat, f: Fact)
    requires ScansOf(store, prefixes, scans) && i < |prefixes| && scans[i].Some? && Under(prefixes, i, f.key)
    ensures f in Loaded(scans) <==> f.key in store && store[f.key] == f.value
  {
    LoadedFrom(prefixes, scans, f);
    if f.key in store && store[f.key] == f.value {
      assert f in scans[i].value;
    }
  }

  /** ... so a range lookup equals a direct scan of the store, ... */
  lemma {:induction false} FactsUnderIsScan(store: map<string, string>, prefixes: seq<ScanPrefix>,
                                            scans: seq<Option<seq<Fact>>>, snapshot: Snapshot,
                                            i: nat, prefix: string, range: seq<Fact>, direct: seq<Fact>)
    requires ScansOf(store, prefixes, scans) && i < |prefixes| && scans[i].Some? && Under(prefixes, i, prefix)
    requires Indexes(snapshot, Loaded(scans)) && IsRange(snapshot.sortedFacts, prefix, range)
    requires IsScan(store, prefix, direct)
    ensures range == direct
  {
    forall f ensures f in range <==> f in direct {
      if prefix <= f.key {
        assert Under(prefixes, i, f.key);
        LoadedAgrees(store, prefixes, scans, i, f);
      }
    }
    SortedUnique(range, direct);
  }

  /** ... and a key lookup equals a direct get. */
  lemma {:induction false} ValueIsGet(store: map<string, string>, prefixes: seq<ScanPrefix>,
                                      scans: seq<Option<seq<Fact>>>, snapshot: Snapshot, i: nat, key: string)
    requires ScansOf(store, prefixes, scans) && i < |prefixes| && scans[i].Some? && Under(prefixes, i, key)
    requires Indexes(snapshot, Loaded(scans))
    ensures Lookup(snapshot.factValueByKey, key) == Lookup(store, key)
  {
    if key in store { LoadedAgrees(store, prefixes, scans, i, Fact(key, store[key])); }
    if key in snapshot.factValueByKey {
      LoadedAgrees(store, prefixes, scans, i, Fact(key, snapshot.factValueByKey[key]));
    }
  }
}
