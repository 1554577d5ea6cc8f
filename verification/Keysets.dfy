/** HMAC keysets: the two loaders, their agreement, and the fingerprint the refresh loop compares.
    A secret is the text of its bytes. */
module Keysets {
  import opened GoStrings
  import opened KeyRing

  datatype Keyset = Keyset(activeKID: string, keys: map<string, string>)

  /** What every loader guarantees. */
  predicate WellFormed(k: Keyset) {
    && !Blank(k.activeKID) && k.activeKID in k.keys
    && forall kid :: kid in k.keys ==> !Blank(kid) && k.keys[kid] != ""
  }

  datatype LoadError = SecretRequired | BadEntry(entry: string) | NoKeys | ActiveMissing(kid: string)

  const DEFAULT_KID := "default"

  lemma TrimmedNotBlank(s: string)
    requires s != "" && Trimmed(s)
    ensures !Blank(s)
  {
    TrimTrimmed(s);
  }

  // ---- the environment loader ---------------------------------------------------------------

  function ActiveOr(kid: string): (r: string)
    ensures !Blank(r)
  {
    TrimmedNotBlank(DEFAULT_KID);
    if Blank(kid) then DEFAULT_KID else kid
  }

  /** The keyset that a load gave, if it gave one. */
  function Outcome(r: Result<Keyset, LoadError>): Option<Keyset> {
    if r.Ok? then Some(r.value) else None
  }

  /** What the environment's settings mean: the ring's entries, or without a ring one secret under the active kid. */
  function FromEnvironment(fallbackSecret: string, spec: string, activeKID: string): Option<Keyset> {
    var parts, active := Split(spec, ','), ActiveOr(activeKID);
    if Blank(spec) then if Blank(fallbackSecret) then None else Some(Keyset(active, map[active := fallbackSecret]))
    else if AnyMalformed(parts) || active !in Build(parts) then None
    else Some(Keyset(active, Build(parts)))
  }

  /** `ParseHMACKeyset`. */
  method ParseHMACKeyset(fallbackSecret: string, spec: string, activeKID: string)
    returns (r: Result<Keyset, LoadError>)
    ensures Outcome(r) == FromEnvironment(fallbackSecret, spec, activeKID)
    ensures r.Ok? ==> WellFormed(r.value)
  {
    hide Trim, Split, Build;
    var active := activeKID;
    if Trim(active) == "" {
      active := DEFAULT_KID;
    }
    assert active == ActiveOr(activeKID);
    var keys: map<string, string> := map[];
    if Trim(spec) != "" {
      var parsed := ParseHmacEntries(spec);
      if parsed.Err? {
        return Err(BadEntry(parsed.error.entry));
      }
      keys := parsed.value;
      RingKeysGood(spec);
    } else {
      if Trim(fallbackSecret) == "" {
        return Err(SecretRequired);
      }
      BlankEmpty();
      keys := keys[active := fallbackSecret];
    }
    if |keys| == 0 {
      return Err(NoKeys);
    }
    if active !in keys {
      return Err(ActiveMissing(active));
    }
    return Ok(Keyset(active, keys));
  }

  /** Without a ring the environment gives one key: the fallback secret as it stands, under the active kid, which is
      `default` if none is named. */
  lemma FallbackKeyset(fallbackSecret: string, spec: string, activeKID: string)
    requires Blank(spec)
    ensures var kid := if Blank(activeKID) then "default" else activeKID;
            FromEnvironment(fallbackSecret, spec, activeKID)
            == if Blank(fallbackSecret) then None else Some(Keyset(kid, map[kid := fallbackSecret]))
  {
  }

  /** With a ring it gives the keyset of exactly the kids that its parts name, the last part for a kid counting, and
      none if a part is malformed or none names the active kid; the fallback secret plays no part. */
  lemma RingKeyset(fallbackSecret: string, spec: string, activeKID: string, k: Keyset)
    requires !Blank(spec)
    ensures var parts := Split(spec, ',');
            FromEnvironment(fallbackSecret, spec, activeKID) == Some(k) <==>
              && !AnyMalformed(parts) && k.activeKID in k.keys
              && k.activeKID == (if Blank(activeKID) then "default" else activeKID)
              && (forall kid, secret :: Maps(k.keys, kid, secret) <==> Gives(parts, kid, secret))
  {
    hide Split, Build, AnyMalformed, Gives, Trim;
    var parts := Split(spec, ',');
    var m := Build(parts);
    forall kid, secret ensures Maps(m, kid, secret) <==> Gives(parts, kid, secret) {
      BuildIff(parts, kid, secret);
    }
    if forall kid, secret :: Maps(k.keys, kid, secret) <==> Gives(parts, kid, secret) {
      SameMaps(k.keys, m);
    }
  }

  lemma SameMaps(m: map<string, string>, n: map<string, string>)
    requires forall kid, secret :: Maps(m, kid, secret) <==> Maps(n, kid, secret)
    ensures m == n
  {
    forall kid ensures kid in m <==> kid in n {
      assert kid in m ==> Maps(m, kid, m[kid]);
      assert kid in n ==> Maps(n, kid, n[kid]);
    }
    forall kid | kid in m ensures m[kid] == n[kid] {
      assert Maps(m, kid, m[kid]);
    }
  }

  lemma BlankEmpty()
    ensures Blank("")
  {
  }

  lemma RingKeysGood(spec: string)
    ensures forall kid :: kid in Build(Split(spec, ',')) ==> !Blank(kid) && Build(Split(spec, ','))[kid] != ""
  {
    hide Build, Trim;
    JoinSplit(spec, ',');
    RingIdsClean(Split(spec, ','));
    forall kid | kid in Build(Split(spec, ',')) ensures !Blank(kid) {
      TrimmedNotBlank(kid);
    }
  }

  // ---- the JSON loader --------------------------------------------------------------------------

  datatype KeysetFile = KeysetFile(activeKID: string, keys: map<string, string>)

  /** `order` is one order in which a Go map with these keys may be ranged over. */
  ghost predicate Enumerates(order: seq<string>, keys: set<string>) {
    && (forall i, j :: 0 <= i < j < |order| ==> order[i] != order[j])
    && (forall k :: k in order <==> k in keys)
  }

  predicate Usable(raw: map<string, string>, k: string) {
    k in raw && Trim(k) != "" && Trim(raw[k]) != ""
  }

  /** The key map filled by ranging over `raw` in this order. */
  function Collected(raw: map<string, string>, order: seq<string>): map<string, string> {
    if order == [] then map[]
    else
      var k := order[|order| - 1];
      var m := Collected(raw, order[..|order| - 1]);
      if Usable(raw, k) then m[Trim(k) := Trim(raw[k])] else m
  }

  function FileActive(f: KeysetFile): (r: string)
    ensures !Blank(r)
  {
    TrimIdempotent(f.activeKID);
    TrimmedNotBlank(DEFAULT_KID);
    if Trim(f.activeKID) == "" then DEFAULT_KID else Trim(f.activeKID)
  }

  function Loaded(f: KeysetFile, order: seq<string>): Result<Keyset, LoadError> {
    var keys := Collected(f.keys, order);
    if keys == map[] then Err(NoKeys)
    else if FileActive(f) !in keys then Err(ActiveMissing(FileActive(f)))
    else Ok(Keyset(FileActive(f), keys))
  }

  /** What the JSON loader guarantees besides: no outer space anywhere. */
  predicate Loadable(k: Keyset) {
    WellFormed(k) && forall kid :: kid in k.keys ==> Trimmed(kid) && Trimmed(k.keys[kid])
  }

  /** `LoadHMACKeysetJSON` after decoding. */
  method LoadHMACKeysetJSON(f: KeysetFile, order: seq<string>) returns (r: Result<Keyset, LoadError>)
    requires Enumerates(order, f.keys.Keys)
    ensures r == Loaded(f, order)
    ensures r.Ok? ==> Loadable(r.value)
  {
    hide Trim;
    var active := Trim(f.activeKID);
    if active == "" {
      active := DEFAULT_KID;
    }
    assert active == FileActive(f);
    var keys: map<string, string> := map[];
    for n := 0 to |order|
      invariant keys == Collected(f.keys, order[..n])
    {
      assert order[..n + 1][..n] == order[..n] && order[n] in f.keys;
      var kid := Trim(order[n]);
      var secret := Trim(f.keys[order[n]]);
      if kid == "" || secret == "" {
        continue;
      }
      keys := keys[kid := secret];
    }
    assert order[..|order|] == order;
    CollectedGood(f.keys, order);
    if |keys| == 0 {
      return Err(NoKeys);
    }
    if active !in keys {
      return Err(ActiveMissing(active));
    }
    return Ok(Keyset(active, keys));
  }

  lemma {:induction false} CollectedGood(raw: map<string, string>, order: seq<string>)
    ensures forall kid :: kid in Collected(raw, order) ==> !Blank(kid) && Collected(raw, order)[kid] != ""
    ensures forall kid :: kid in Collected(raw, order) ==> Trimmed(kid) && Trimmed(Collected(raw, order)[kid])
  {
    hide Trim, Trimmed;
    if order != [] {
      var k := order[|order| - 1];
      CollectedGood(raw, order[..|order| - 1]);
      TrimIdempotent(k);
      TrimIsTrimmed(k);
      if k in raw {
        TrimIsTrimmed(raw[k]);
      }
    }
  }

  lemma TrimIsTrimmed(s: string)
    ensures Trimmed(Trim(s))
  {
    var l, r := TrimParts(s);
  }

  ghost predicate Loads(f: KeysetFile, order: seq<string>, k: Keyset) {
    Enumerates(order, f.keys.Keys) && Loaded(f, order) == Ok(k)
  }

  /** The keysets the JSON loader returns, for some file and some order, are exactly the loadable ones. */
  lemma LoadableIff(k: Keyset)
    ensures Loadable(k) <==> exists f: KeysetFile, order :: Loads(f, order, k)
  {
    hide Trim, Trimmed, Enumerates, Collected;
    if Loadable(k) {
      var f := KeysetFile(k.activeKID, k.keys);
      var order := SomeOrder(k.keys.Keys);
      assert forall kid :: kid in order <==> kid in k.keys by { OrderHas(order, k.keys.Keys); }
      BlankEmpty();
      CollectedSame(k.keys, order);
      TrimTrimmed(k.activeKID);
      assert Collected(k.keys, order) == k.keys;
      assert Loads(f, order, k);
    } else if f: KeysetFile, order :| Loads(f, order, k) {
      CollectedGood(f.keys, order);
    }
  }

  lemma OrderHas(order: seq<string>, keys: set<string>)
    requires Enumerates(order, keys)
    ensures forall k :: k in order <==> k in keys
  {
  }

  /** Two usable keys that trim to one kid also trim to one secret. */
  ghost predicate NoConflict(raw: map<string, string>) {
    forall a, b :: Usable(raw, a) && Usable(raw, b) && Trim(a) == Trim(b) ==> Trim(raw[a]) == Trim(raw[b])
  }

  lemma {:induction false} CollectedMeaning(raw: map<string, string>, order: seq<string>, kid: string)
    ensures kid in Collected(raw, order) <==> exists k :: k in order && Usable(raw, k) && Trim(k) == kid
    ensures kid in Collected(raw, order) ==>
              exists k :: k in order && Usable(raw, k) && Trim(k) == kid && Collected(raw, order)[kid] == Trim(raw[k])
  {
    hide Trim;
    if order != [] {
      var init, k := order[..|order| - 1], order[|order| - 1];
      CollectedMeaning(raw, init, kid);
      assert order == init + [k];
    }
  }

  lemma CollectedAgree(raw: map<string, string>, o1: seq<string>, o2: seq<string>)
    requires Enumerates(o1, raw.Keys) && Enumerates(o2, raw.Keys)
    ensures Collected(raw, o1).Keys == Collected(raw, o2).Keys
    ensures NoConflict(raw) ==> Collected(raw, o1) == Collected(raw, o2)
  {
    hide Trim, Collected;
    var m1, m2 := Collected(raw, o1), Collected(raw, o2);
    forall kid ensures kid in m1 <==> kid in m2 {
      CollectedMeaning(raw, o1, kid);
      CollectedMeaning(raw, o2, kid);
    }
    if NoConflict(raw) {
      forall kid | kid in m1 ensures m1[kid] == m2[kid] {
        CollectedMeaning(raw, o1, kid);
        CollectedMeaning(raw, o2, kid);
      }
    }
  }

  lemma {:induction false} SomeOrder(keys: set<string>) returns (order: seq<string>)
    ensures Enumerates(order, keys)
  {
    if keys == {} {
      order := [];
    } else {
      var k :| k in keys;
      order := SomeOrder(keys - {k});
      order := order + [k];
    }
  }

  lemma OrderEndingIn(keys: set<string>, k: string) returns (order: seq<string>)
    requires k in keys
    ensures Enumerates(order, keys) && order != [] && order[|order| - 1] == k
  {
    order := SomeOrder(keys - {k});
    order := order + [k];
  }

  /** A file loads exactly if a usable entry's kid trims to the active one; otherwise the error tells whether there
      was no usable entry at all. */
  lemma LoadedIff(f: KeysetFile, order: seq<string>)
    requires Enumerates(order, f.keys.Keys)
    ensures Loaded(f, order).Ok? <==> exists k :: Usable(f.keys, k) && Trim(k) == FileActive(f)
    ensures Loaded(f, order) == Err(NoKeys) <==> forall k :: !Usable(f.keys, k)
    ensures Loaded(f, order).Err? ==>
              Loaded(f, order) == Err(NoKeys) || Loaded(f, order) == Err(ActiveMissing(FileActive(f)))
  {
    hide Trim, Collected, FileActive, Enumerates;
    var keys := Collected(f.keys, order);
    UsableEnumerated(f.keys, order);
    CollectedMeaning(f.keys, order, FileActive(f));
    if k :| Usable(f.keys, k) {
      CollectedMeaning(f.keys, order, Trim(k));
      assert Trim(k) in keys;
    }
    if kid :| kid in keys {
      CollectedMeaning(f.keys, order, kid);
    }
  }

  /** The loader's result is the same for every map iteration order exactly when no two entries
      conflict, or the active kid is missing and every order fails alike. */
  ghost predicate OrderIndependent(f: KeysetFile) {
    forall o1, o2 :: Enumerates(o1, f.keys.Keys) && Enumerates(o2, f.keys.Keys) ==> Loaded(f, o1) == Loaded(f, o2)
  }

  lemma OrderIndependentIff(f: KeysetFile)
    ensures OrderIndependent(f) <==>
              NoConflict(f.keys) || !exists k :: Usable(f.keys, k) && Trim(k) == FileActive(f)
  {
    hide Trim, Collected, FileActive, Enumerates;
    forall o1, o2 | Enumerates(o1, f.keys.Keys) && Enumerates(o2, f.keys.Keys)
      ensures Collected(f.keys, o1).Keys == Collected(f.keys, o2).Keys
      ensures NoConflict(f.keys) ==> Collected(f.keys, o1) == Collected(f.keys, o2)
      ensures FileActive(f) in Collected(f.keys, o1) <==> exists k :: Usable(f.keys, k) && Trim(k) == FileActive(f)
    {
      CollectedAgree(f.keys, o1, o2);
      CollectedMeaning(f.keys, o1, FileActive(f));
      UsableEnumerated(f.keys, o1);
    }
    if !NoConflict(f.keys) && exists k :: Usable(f.keys, k) && Trim(k) == FileActive(f) {
      ConflictShows(f);
    }
  }

  lemma UsableEnumerated(raw: map<string, string>, order: seq<string>)
    requires Enumerates(order, raw.Keys)
    ensures forall k :: Usable(raw, k) ==> k in order
  {
  }

  lemma ConflictShows(f: KeysetFile)
    requires !NoConflict(f.keys) && exists k :: Usable(f.keys, k) && Trim(k) == FileActive(f)
    ensures !OrderIndependent(f)
  {
    hide Trim, FileActive, Enumerates;
    var a, b :| Usable(f.keys, a) && Usable(f.keys, b) && Trim(a) == Trim(b) && Trim(f.keys[a]) != Trim(f.keys[b]);
    var o1 := OrderEndingIn(f.keys.Keys, a);
    var o2 := OrderEndingIn(f.keys.Keys, b);
    CollectedMeaning(f.keys, o1, FileActive(f));
    CollectedMeaning(f.keys, o2, FileActive(f));
    UsableEnumerated(f.keys, o1);
    UsableEnumerated(f.keys, o2);
    assert Collected(f.keys, o1)[Trim(a)] == Trim(f.keys[a]);
    assert Collected(f.keys, o2)[Trim(b)] == Trim(f.keys[b]);
    assert Loaded(f, o1) != Loaded(f, o2);
  }

  // ---- one keyset, two texts ----------------------------------------------------------------------

  predicate CleanKeys(keys: map<string, string>) {
    forall kid :: kid in keys ==> CleanId(kid) && CleanValue(keys[kid])
  }

  predicate TrimmedKeys(keys: map<string, string>) {
    forall kid :: kid in keys ==> kid != "" && Trimmed(kid) && keys[kid] != "" && Trimmed(keys[kid])
  }

  lemma CleanTrimmed(keys: map<string, string>)
    requires CleanKeys(keys)
    ensures TrimmedKeys(keys)
  {
  }

  /** Collecting entries without outer space copies them. */
  lemma {:induction false} CollectedSame(keys: map<string, string>, order: seq<string>)
    requires TrimmedKeys(keys) && forall k :: k in order ==> k in keys
    ensures Collected(keys, order) == map k | k in order :: keys[k]
  {
    hide Trim;
    if order != [] {
      var init, k := order[..|order| - 1], order[|order| - 1];
      assert k in order;
      CollectedSame(keys, init);
      TrimTrimmed(k);
      TrimTrimmed(keys[k]);
      assert order == init + [k];
    }
  }

  lemma {:induction false} MapOfMeaning(entries: seq<Entry>)
    requires forall i, j :: 0 <= i < j < |entries| ==> entries[i].id != entries[j].id
    ensures forall e :: e in entries ==> e.id in MapOf(entries) && MapOf(entries)[e.id] == e.value
    ensures forall id :: id in MapOf(entries) ==> exists e :: e in entries && e.id == id
  {
    if entries != [] {
      var init, e := entries[..|entries| - 1], entries[|entries| - 1];
      MapOfMeaning(init);
      assert entries == init + [e];
    }
  }

  /** `entries` lists this key map once. */
  ghost predicate Lists(entries: seq<Entry>, keys: map<string, string>) {
    && (forall i, j :: 0 <= i < j < |entries| ==> entries[i].id != entries[j].id)
    && (forall e :: e in entries ==> e.id in keys && keys[e.id] == e.value)
    && (forall k :: k in keys ==> Entry(k, keys[k]) in entries)
  }

  /** The same clean entries give the same key map through the ring text and through the JSON file, in whatever
      order either is written or ranged over. */
  lemma SameKeys(entries: seq<Entry>, keys: map<string, string>, order: seq<string>)
    requires entries != [] && Lists(entries, keys) && CleanKeys(keys) && Enumerates(order, keys.Keys)
    ensures var spec := PrintRing(entries);
            !Blank(spec) && !AnyMalformed(Split(spec, ',')) && Build(Split(spec, ',')) == keys == Collected(keys, order)
  {
    hide Build, Split, PrintRing, Collected, CleanId, CleanValue, Blank;
    RingRoundTrip(entries);
    MapOfMeaning(entries);
    assert MapOf(entries) == keys;
    CleanTrimmed(keys);
    CollectedSame(keys, order);
    assert entries[0] in entries && entries[0].id in keys;
    if Blank(PrintRing(entries)) {
      BlankBuildsNothing(PrintRing(entries));
    }
  }

  lemma BlankBuildsNothing(spec: string)
    requires Blank(spec)
    ensures Build(Split(spec, ',')) == map[]
  {
    hide Trim;
    if ',' in spec {
      TrimKeeps(spec, ',');
    } else if ':' in spec {
      TrimKeeps(spec, ':');
    } else {
      SplitFree(spec, ',');
      assert [spec][..0] == [];
    }
  }

  /** Given the same clean entries and the same text for the active kid, the two loaders have the same outcome
      exactly when that text is blank or carries no outer space, or names no key even without it; and whatever
      the environment loader accepts, the JSON loader loads as the same keyset. */
  lemma LoadersAgreeIff(entries: seq<Entry>, keys: map<string, string>, order: seq<string>,
                        fallbackSecret: string, active: string)
    requires entries != [] && Lists(entries, keys) && CleanKeys(keys) && Enumerates(order, keys.Keys)
    ensures var env := FromEnvironment(fallbackSecret, PrintRing(entries), active);
            var file := Outcome(Loaded(KeysetFile(active, keys), order));
            && (env == file <==> Blank(active) || Trimmed(active) || Trim(active) !in keys)
            && (env.Some? ==> file == env)
  {
    hide Build, Split, PrintRing, Collected, Trim, Trimmed, Lists, Enumerates;
    SameKeys(entries, keys, order);
    assert keys != map[] by { NoneListed(entries, keys); }
    if Trimmed(active) {
      TrimTrimmed(active);
    }
  }

  lemma NoneListed(entries: seq<Entry>, keys: map<string, string>)
    requires entries != [] && Lists(entries, keys)
    ensures keys != map[]
  {
    assert entries[0] in entries;
  }

  /** A space before the active kid: the JSON loader drops it, the environment loader does not find the key. */
  lemma LoadersDiffer()
    ensures FromEnvironment("", "k:s", " k") == None
    ensures Outcome(Loaded(KeysetFile(" k", map["k" := "s"]), ["k"])) == Some(Keyset("k", map["k" := "s"]))
  {
    hide Build, Split, Trim, Collected, PrintRing;
    var entries, keys := [Entry("k", "s")], map["k" := "s"];
    assert PrintRing(entries) == "k:s" by { PrintOne(entries[0]); }
    SameKeys(entries, keys, ["k"]);
    TrimUnique(" ", "k", "");
    assert " " + "k" + "" == " k";
  }

  lemma PrintOne(e: Entry)
    ensures PrintRing([e]) == Print(e)
  {
  }

  // ---- the fingerprint ------------------------------------------------------------------------------

  predicate Sorted(s: seq<string>) {
    forall i, j :: 0 <= i < j < |s| ==> LexLeq(s[i], s[j])
  }

  function Inserted(s: seq<string>, x: string): seq<string> {
    if s == [] || LexLeq(x, s[0]) then [x] + s else [s[0]] + Inserted(s[1..], x)
  }

  lemma {:induction false} InsertedHas(s: seq<string>, x: string)
    ensures multiset(Inserted(s, x)) == multiset(s) + multiset{x}
    ensures forall y :: y in Inserted(s, x) ==> y == x || y in s
  {
    hide LexLeq;
    if s != [] && !LexLeq(x, s[0]) {
      InsertedHas(s[1..], x);
      assert s == [s[0]] + s[1..];
    }
  }

  lemma SortedCons(x: string, t: seq<string>)
    requires Sorted(t) && forall y :: y in t ==> LexLeq(x, y)
    ensures Sorted([x] + t)
  {
    hide LexLeq;
    var s := [x] + t;
    forall i, j | 0 <= i < j < |s| ensures LexLeq(s[i], s[j]) {
      assert s[j] == t[j - 1];
      assert i > 0 ==> s[i] == t[i - 1];
    }
  }

  lemma SortedTail(s: seq<string>)
    requires s != [] && Sorted(s)
    ensures Sorted(s[1..]) && forall y :: y in s[1..] ==> LexLeq(s[0], y)
  {
    hide LexLeq;
  }

  lemma {:induction false} InsertedSorted(s: seq<string>, x: string)
    requires Sorted(s)
    ensures Sorted(Inserted(s, x)) && multiset(Inserted(s, x)) == multiset(s) + multiset{x}
  {
    hide Sorted, LexLeq;
    InsertedHas(s, x);
    if s == [] {
      NoneSorted();
      SortedCons(x, []);
    } else if LexLeq(x, s[0]) {
      SortedTail(s);
      forall y | y in s ensures LexLeq(x, y) {
        if y != s[0] { LexTransitive(x, s[0], y); }
      }
      SortedCons(x, s);
    } else {
      LexTotal(x, s[0]);
      SortedTail(s);
      InsertedSorted(s[1..], x);
      InsertedHas(s[1..], x);
      SortedCons(s[0], Inserted(s[1..], x));
    }
  }

  /** `sort.Strings`, as insertion into a sorted sequence. */
  function SortStrings(s: seq<string>): seq<string> {
    if s == [] then [] else Inserted(SortStrings(s[..|s| - 1]), s[|s| - 1])
  }

  lemma {:induction false} SortStringsSorted(s: seq<string>)
    ensures Sorted(SortStrings(s)) && multiset(SortStrings(s)) == multiset(s)
  {
    hide Sorted, Inserted;
    if s == [] {
      NoneSorted();
    } else {
      SortStringsSorted(s[..|s| - 1]);
      InsertedSorted(SortStrings(s[..|s| - 1]), s[|s| - 1]);
      assert s == s[..|s| - 1] + [s[|s| - 1]];
    }
  }

  lemma NoneSorted()
    ensures Sorted([])
  {
  }

  lemma {:induction false} SortedUnique(s: seq<string>, t: seq<string>)
    requires Sorted(s) && Sorted(t) && multiset(s) == multiset(t)
    ensures s == t
  {
    hide Sorted, LexLeq;
    assert |multiset(s)| == |s| && |multiset(t)| == |t|;
    if s != [] {
      SortedTail(s);
      SortedTail(t);
      assert s[0] in multiset(t) && t[0] in multiset(s);
      LeastFirst(s, t[0]);
      LeastFirst(t, s[0]);
      LexAntisymmetric(s[0], t[0]);
      TailMultiset(s);
      TailMultiset(t);
      SortedUnique(s[1..], t[1..]);
      assert s == [s[0]] + s[1..] && t == [t[0]] + t[1..];
    }
  }

  lemma TailMultiset(s: seq<string>)
    requires s != []
    ensures multiset(s[1..]) == multiset(s) - multiset{s[0]}
  {
    assert s == [s[0]] + s[1..];
  }

  lemma LeastFirst(s: seq<string>, x: string)
    requires Sorted(s) && x in s
    ensures LexLeq(s[0], x)
  {
    LexTotal(x, x);
  }

  lemma EnumerationsPermute(o1: seq<string>, o2: seq<string>, keys: set<string>)
    requires Enumerates(o1, keys) && Enumerates(o2, keys)
    ensures multiset(o1) == multiset(o2)
  {
    OnceEach(o1);
    OnceEach(o2);
    forall k ensures multiset(o1)[k] == multiset(o2)[k] {
      assert k in o1 <==> k in o2;
    }
  }

  lemma {:induction false} OnceEach(s: seq<string>)
    requires forall i, j :: 0 <= i < j < |s| ==> s[i] != s[j]
    ensures forall k :: multiset(s)[k] == if k in s then 1 else 0
  {
    if s != [] {
      OnceEach(s[..|s| - 1]);
      assert s == s[..|s| - 1] + [s[|s| - 1]];
    }
  }

  /** `|kid:secret` for each of these kids, in this order. */
  function Listed(k: Keyset, kids: seq<string>): string
    requires forall kid :: kid in kids ==> kid in k.keys
  {
    if kids == [] then ""
    else Listed(k, kids[..|kids| - 1]) + ("|" + kids[|kids| - 1] + ":" + k.keys[kids[|kids| - 1]])
  }

  ghost function SortedKids(k: Keyset): (kids: seq<string>)
    ensures Sorted(kids) && Enumerates(kids, k.keys.Keys)
  {
    SortedKidsExist(k.keys.Keys);
    var kids :| Sorted(kids) && Enumerates(kids, k.keys.Keys);
    kids
  }

  lemma SortedKidsExist(keys: set<string>)
    ensures exists kids :: Sorted(kids) && Enumerates(kids, keys)
  {
    var o := SomeOrder(keys);
    SortedEnumeration(o, keys);
    assert Sorted(SortStrings(o)) && Enumerates(SortStrings(o), keys);
  }

  lemma SortedEnumeration(order: seq<string>, keys: set<string>)
    requires Enumerates(order, keys)
    ensures Sorted(SortStrings(order)) && Enumerates(SortStrings(order), keys)
  {
    var t := SortStrings(order);
    SortStringsSorted(order);
    OnceEach(order);
    forall k ensures k in t <==> k in keys {
      assert k in t <==> k in multiset(t);
      assert k in order <==> k in multiset(order);
    }
    forall i, j | 0 <= i < j < |t| ensures t[i] != t[j] {
      if t[i] == t[j] {
        TwiceIn(t, i, j);
      }
    }
  }

  lemma TwiceIn(t: seq<string>, i: nat, j: nat)
    requires i < j < |t| && t[i] == t[j]
    ensures multiset(t)[t[i]] >= 2
  {
    assert t == t[..j] + [t[j]] + t[j + 1..];
    assert t[i] in t[..j];
  }

  /** The text that is hashed. */
  ghost function FingerprintText(k: Keyset): string {
    k.activeKID + Listed(k, SortedKids(k))
  }

  /** `keysetFingerprint` does not depend on the order in which the key map is ranged over. */
  method KeysetFingerprint(h: string -> string, k: Keyset, order: seq<string>) returns (r: string)
    requires Enumerates(order, k.keys.Keys)
    ensures r == h(FingerprintText(k))
  {
    hide SortStrings, Sorted, LexLeq, Listed;
    var keys: seq<string> := [];
    for n := 0 to |order|
      invariant keys == order[..n]
    {
      keys := keys + [order[n]];
    }
    assert keys == order;
    keys := SortStrings(keys);
    SortedEnumeration(order, k.keys.Keys);
    SortedKidsAre(k, keys);
    var joined := k.activeKID;
    assert joined == k.activeKID + Listed(k, keys[..0]) by { ListedNone(k); }
    for n := 0 to |keys|
      invariant joined == k.activeKID + Listed(k, keys[..n])
    {
      var kid := keys[n];
      ListedOneMore(k, keys, n);
      joined := joined + ("|" + kid + ":" + k.keys[kid]);
    }
    assert keys[..|keys|] == keys;
    r := h(joined);
  }

  lemma ListedNone(k: Keyset)
    ensures Listed(k, []) == ""
  {
  }

  lemma ListedOneMore(k: Keyset, kids: seq<string>, n: nat)
    requires n < |kids| && forall kid :: kid in kids ==> kid in k.keys
    ensures k.activeKID + Listed(k, kids[..n + 1])
            == k.activeKID + Listed(k, kids[..n]) + ("|" + kids[n] + ":" + k.keys[kids[n]])
  {
    assert kids[..n + 1][..n] == kids[..n];
  }

  /** No delimiter inside what the fingerprint text delimits. */
  predicate Delimited(k: Keyset) {
    '|' !in k.activeKID && forall kid :: kid in k.keys ==> '|' !in kid && ':' !in kid && '|' !in k.keys[kid]
  }

  function EntryTexts(k: Keyset, kids: seq<string>): seq<string>
    requires forall kid :: kid in kids ==> kid in k.keys
  {
    seq(|kids|, i requires 0 <= i < |kids| => kids[i] + ":" + k.keys[kids[i]])
  }

  lemma {:induction false} ListedJoined(k: Keyset, kids: seq<string>)
    requires forall kid :: kid in kids ==> kid in k.keys
    ensures k.activeKID + Listed(k, kids) == Join([k.activeKID] + EntryTexts(k, kids), '|')
  {
    if kids == [] {
      assert EntryTexts(k, kids) == [];
    } else {
      var init, last := kids[..|kids| - 1], kids[|kids| - 1];
      ListedJoined(k, init);
      var e := last + ":" + k.keys[last];
      assert EntryTexts(k, kids) == EntryTexts(k, init) + [e];
      JoinConcat([k.activeKID] + EntryTexts(k, init), [e], '|');
      assert [k.activeKID] + EntryTexts(k, kids) == ([k.activeKID] + EntryTexts(k, init)) + [e];
      assert k.activeKID + Listed(k, kids) == (k.activeKID + Listed(k, init)) + "|" + e;
    }
  }

  lemma ColonSplit(a: string, x: string, b: string, y: string)
    requires ':' !in a && ':' !in b && a + ":" + x == b + ":" + y
    ensures a == b && x == y
  {
    var s := a + ":" + x;
    IndexAfter(a, ':', x);
    IndexAfter(b, ':', y);
    assert s[..|a|] == a && s[|a| + 1..] == x && s[..|b|] == b && s[|b| + 1..] == y;
  }

  /** Keysets free of the delimiters are told apart by their fingerprint texts. */
  lemma FingerprintTextInjective(a: Keyset, b: Keyset)
    requires Delimited(a) && Delimited(b) && FingerprintText(a) == FingerprintText(b)
    ensures a == b
  {
    hide Listed, Sorted, LexLeq, Join, Split, EntryTexts;
    var p, q := SortedKids(a), SortedKids(b);
    ListedJoined(a, p);
    ListedJoined(b, q);
    var s, t := [a.activeKID] + EntryTexts(a, p), [b.activeKID] + EntryTexts(b, q);
    EntryTextsFree(a, p);
    EntryTextsFree(b, q);
    SplitJoin(s, '|');
    SplitJoin(t, '|');
    assert s == t;
    assert a.activeKID == s[0] == b.activeKID && EntryTexts(a, p) == s[1..] == EntryTexts(b, q);
    SameTexts(a, p, b, q);
  }

  lemma SameTexts(a: Keyset, p: seq<string>, b: Keyset, q: seq<string>)
    requires Delimited(a) && Delimited(b) && Enumerates(p, a.keys.Keys) && Enumerates(q, b.keys.Keys)
    requires EntryTexts(a, p) == EntryTexts(b, q)
    ensures a.keys == b.keys
  {
    assert |p| == |EntryTexts(a, p)| == |q|;
    forall i | 0 <= i < |p| ensures p[i] == q[i] && a.keys[p[i]] == b.keys[q[i]] {
      assert EntryTexts(a, p)[i] == EntryTexts(b, q)[i];
      assert p[i] in p && q[i] in q;
      ColonSplit(p[i], a.keys[p[i]], q[i], b.keys[q[i]]);
    }
    assert p == q;
    forall kid | kid in a.keys ensures a.keys[kid] == b.keys[kid] {
      assert kid in p;
    }
  }

  lemma EntryTextsFree(k: Keyset, kids: seq<string>)
    requires Delimited(k) && forall kid :: kid in kids ==> kid in k.keys
    ensures Free([k.activeKID] + EntryTexts(k, kids), '|')
  {
    forall i | 0 <= i < |kids| ensures '|' !in EntryTexts(k, kids)[i] {
      assert kids[i] in kids;
    }
  }

  lemma SortedKidsAre(k: Keyset, kids: seq<string>)
    requires Sorted(kids) && Enumerates(kids, k.keys.Keys)
    ensures SortedKids(k) == kids
  {
    EnumerationsPermute(kids, SortedKids(k), k.keys.Keys);
    SortedUnique(kids, SortedKids(k));
  }
}
