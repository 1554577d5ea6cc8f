/** The `id:value,id:value` rings: three strict parsers and a lenient one, and the text they read. */
module KeyRing {
  import opened GoStrings

  // ---- what a ring text means ---------------------------------------------------------------

  /** One comma-separated part names `value` for `id`. */
  ghost predicate Names(part: string, id: string, value: string) {
    exists a, b :: part == a + ":" + b && ':' !in a && id == Trim(a) && value == Trim(b) && id != "" && value != ""
  }

  datatype Entry = Entry(id: string, value: string)

  /** The entry a part names, if any. */
  function EntryOf(part: string): Option<Entry> {
    var i := Index(part, ':');
    if i < 0 then None else Made(part[..i], part[i + 1..])
  }

  function Made(a: string, b: string): Option<Entry> {
    if Trim(a) == "" || Trim(b) == "" then None else Some(Entry(Trim(a), Trim(b)))
  }

  lemma EntryAt(a: string, b: string)
    requires ':' !in a
    ensures EntryOf(a + ":" + b) == Made(a, b)
  {
    hide Made;
    var s := a + ":" + b;
    IndexAfter(a, ':', b);
    assert s[..|a|] == a && s[|a| + 1..] == b;
  }

  lemma EntryMeaning(part: string, id: string, value: string)
    ensures Names(part, id, value) <==> EntryOf(part) == Some(Entry(id, value))
  {
    hide Trim, EntryOf;
    if EntryOf(part) == Some(Entry(id, value)) {
      SplitAtColon(part);
      var i := Index(part, ':');
      var a, b := part[..i], part[i + 1..];
      assert part == a + ":" + b && ':' !in a && id == Trim(a) && value == Trim(b);
    }
    if Names(part, id, value) {
      var a, b :| part == a + ":" + b && ':' !in a && id == Trim(a) && value == Trim(b) && id != "" && value != "";
      EntryAt(a, b);
    }
  }

  predicate Malformed(part: string) {
    !Blank(part) && EntryOf(part).None?
  }

  /** The entries named by the parts; a later part replaces an earlier one with the same id. */
  function Build(parts: seq<string>): map<string, string> {
    if parts == [] then map[]
    else
      var m := Build(parts[..|parts| - 1]);
      match EntryOf(parts[|parts| - 1])
      case None => m
      case Some(e) => m[e.id := e.value]
  }

  predicate AnyMalformed(parts: seq<string>) {
    exists i :: 0 <= i < |parts| && Malformed(parts[i])
  }

  /** A ring holds an id exactly when some part names it, with the value the last such part gives. */
  lemma {:induction false} BuildMeaning(parts: seq<string>, id: string)
    ensures id !in Build(parts) ==> forall i, v :: 0 <= i < |parts| ==> !Names(parts[i], id, v)
    ensures id in Build(parts) ==> exists i :: LastNaming(parts, i, id, Build(parts)[id])
  {
    hide Names, EntryOf;
    if parts != [] {
      var n := |parts| - 1;
      var init := parts[..n];
      BuildMeaning(init, id);
      forall v ensures Names(parts[n], id, v) <==> EntryOf(parts[n]) == Some(Entry(id, v)) {
        EntryMeaning(parts[n], id, v);
      }
      var e := EntryOf(parts[n]);
      if e.Some? && e.value.id == id {
        assert LastNaming(parts, n, id, Build(parts)[id]);
      } else if id in Build(init) {
        var i :| LastNaming(init, i, id, Build(init)[id]);
        assert LastNaming(parts, i, id, Build(parts)[id]);
      }
    }
  }

  ghost predicate LastNaming(parts: seq<string>, i: int, id: string, value: string) {
    0 <= i < |parts| && Names(parts[i], id, value) && forall j, v :: i < j < |parts| ==> !Names(parts[j], id, v)
  }

  predicate Maps(m: map<string, string>, id: string, value: string) {
    id in m && m[id] == value
  }

  /** The last part that names this id gives it this value. */
  ghost predicate Gives(parts: seq<string>, id: string, value: string) {
    exists i :: LastNaming(parts, i, id, value)
  }

  /** The same as one equivalence: an id has a value exactly if the last part that names it gives that value. */
  lemma BuildIff(parts: seq<string>, id: string, value: string)
    ensures Maps(Build(parts), id, value) <==> Gives(parts, id, value)
  {
    hide Build, Names, EntryOf;
    BuildMeaning(parts, id);
    if i :| LastNaming(parts, i, id, value) {
      assert id in Build(parts);
      var j :| LastNaming(parts, j, id, Build(parts)[id]);
      assert i == j;
      EntryMeaning(parts[i], id, value);
      EntryMeaning(parts[i], id, Build(parts)[id]);
    }
  }

  /** Trimming a part first does not change what it names. */
  lemma TrimKeepsEntry(part: string)
    ensures EntryOf(Trim(part)) == EntryOf(part)
  {
    hide Trim, Made;
    var l, r := TrimParts(part);
    var t := Trim(part);
    if ':' in t {
      var i := Index(t, ':');
      var a, b := t[..i], t[i + 1..];
      assert t == a + ":" + b;
      Surround(l, a, b, r);
      PadMade(l, a, b, r);
      EntryAt(a, b);
    } else {
      TrimKeeps(part, ':');
    }
  }

  lemma Surround(l: string, a: string, b: string, r: string)
    requires AllSpace(l) && ':' !in a
    ensures l + (a + ":" + b) + r == (l + a) + ":" + (b + r)
    ensures EntryOf(l + (a + ":" + b) + r) == Made(l + a, b + r)
  {
    hide Made, EntryOf;
    assert ':' !in l + a;
    assert l + (a + ":" + b) + r == (l + a) + ":" + (b + r);
    EntryAt(l + a, b + r);
  }

  lemma PadMade(l: string, a: string, b: string, r: string)
    requires AllSpace(l) && AllSpace(r)
    ensures Made(l + a, b + r) == Made(a, b)
  {
    hide Trim;
    TrimPad(l, a, "");
    assert l + a + "" == l + a;
    TrimPad("", b, r);
    assert "" + b + r == b + r;
  }

  lemma TrimPad(l: string, s: string, r: string)
    requires AllSpace(l) && AllSpace(r)
    ensures Trim(l + s + r) == Trim(s)
  {
    var p, q := TrimParts(s);
    assert l + s + r == (l + p) + Trim(s) + (q + r);
    TrimUnique(l + p, Trim(s), q + r);
  }

  // ---- the parsers -------------------------------------------------------------------------

  datatype RingError = InvalidEntry(entry: string)

  /** The HMAC keyset loop: split each entry at the first colon with `SplitN(entry, ":", 2)`. */
  method ParseHmacEntries(spec: string) returns (r: Result<map<string, string>, RingError>)
    ensures r.Ok? <==> !AnyMalformed(Split(spec, ','))
    ensures r.Ok? ==> r.value == Build(Split(spec, ','))
    ensures r.Err? ==> exists p :: p in Split(spec, ',') && Malformed(p) && r.error.entry == Trim(p)
  {
    hide Trim, Split, Build, EntryOf, AnyMalformed, Malformed;
    var parts := Split(spec, ',');
    var out: map<string, string> := map[];
    NothingRead(parts);
    for n := 0 to |parts|
      invariant !AnyMalformed(parts[..n])
      invariant out == Build(parts[..n])
    {
      ReadOne(parts, n);
      var entry := Trim(parts[n]);
      if entry == "" {
        continue;
      }
      SplitAtColon(entry);
      var pair := SplitN2(entry);
      if |pair| != 2 {
        assert parts[n] in parts;
        return Err(InvalidEntry(entry));
      }
      var kid := Trim(pair[0]);
      var secret := Trim(pair[1]);
      if kid == "" || secret == "" {
        assert parts[n] in parts;
        return Err(InvalidEntry(entry));
      }
      out := out[kid := secret];
    }
    assert parts[..|parts|] == parts;
    return Ok(out);
  }

  /** The private-ring and public-ring loops: the position of the first colon is tested first. */
  method ParseKeyRing(raw: string) returns (r: Result<map<string, string>, RingError>)
    ensures r.Ok? <==> !AnyMalformed(Split(raw, ','))
    ensures r.Ok? ==> r.value == Build(Split(raw, ','))
    ensures r.Err? ==> exists p :: p in Split(raw, ',') && Malformed(p) && r.error.entry == Trim(p)
  {
    hide Trim, Split, Build, EntryOf, AnyMalformed, Malformed;
    var parts := Split(raw, ',');
    var ring: map<string, string> := map[];
    NothingRead(parts);
    for n := 0 to |parts|
      invariant !AnyMalformed(parts[..n])
      invariant ring == Build(parts[..n])
    {
      ReadOne(parts, n);
      var p := Trim(parts[n]);
      if p == "" {
        continue;
      }
      SplitAtColon(p);
      var idx := Index(p, ':');
      if idx <= 0 || idx >= |p| - 1 {
        EdgeColon(p);
        assert parts[n] in parts;
        return Err(InvalidEntry(p));
      }
      var id := Trim(p[..idx]);
      var val := Trim(p[idx + 1..]);
      if id == "" || val == "" {
        assert parts[n] in parts;
        return Err(InvalidEntry(p));
      }
      ring := ring[id := val];
    }
    assert parts[..|parts|] == parts;
    return Ok(ring);
  }

  /** `parseKeyValueSecrets`: the same loop, passing over what the others refuse. */
  method ParseKeyValueSecrets(spec: string) returns (out: map<string, string>)
    ensures out == Build(Split(spec, ','))
  {
    hide Trim, Split, Build, EntryOf, AnyMalformed, Malformed;
    var parts := Split(spec, ',');
    out := map[];
    NothingRead(parts);
    for n := 0 to |parts|
      invariant out == Build(parts[..n])
    {
      ReadOne(parts, n);
      var entry := Trim(parts[n]);
      if entry == "" {
        continue;
      }
      SplitAtColon(entry);
      var pair := SplitN2(entry);
      if |pair| != 2 {
        continue;
      }
      var kid := Trim(pair[0]);
      var secret := Trim(pair[1]);
      if kid == "" || secret == "" {
        continue;
      }
      out := out[kid := secret];
    }
    assert parts[..|parts|] == parts;
  }

  /** `strings.SplitN(entry, ":", 2)`. */
  function SplitN2(entry: string): seq<string> {
    var i := Index(entry, ':');
    if i < 0 then [entry] else [entry[..i], entry[i + 1..]]
  }

  lemma NothingRead(parts: seq<string>)
    ensures parts[..0] == [] && Build([]) == map[] && !AnyMalformed([])
  {
  }

  /** What reading one more part does, by the entry its trimmed text makes. */
  lemma ReadOne(parts: seq<string>, n: nat)
    requires n < |parts|
    ensures var e := EntryOf(Trim(parts[n]));
            && Build(parts[..n + 1])
               == (if e.None? then Build(parts[..n]) else Build(parts[..n])[e.value.id := e.value.value])
            && (Malformed(parts[n]) <==> e.None? && Trim(parts[n]) != "")
            && (Trim(parts[n]) == "" ==> e.None?)
            && (AnyMalformed(parts[..n + 1]) <==> AnyMalformed(parts[..n]) || Malformed(parts[n]))
            && (Malformed(parts[n]) ==> AnyMalformed(parts))
  {
    hide Trim, EntryOf;
    TrimKeepsEntry(parts[n]);
    assert parts[..n + 1][..n] == parts[..n];
    if Trim(parts[n]) == "" {
      EmptyEntry();
    }
    AnyMalformedNext(parts, n);
  }

  lemma AnyMalformedNext(parts: seq<string>, n: nat)
    requires n < |parts|
    ensures AnyMalformed(parts[..n + 1]) <==> AnyMalformed(parts[..n]) || Malformed(parts[n])
  {
    hide Malformed;
    assert parts[..n + 1] == parts[..n] + [parts[n]];
    if AnyMalformed(parts[..n]) {
      var i :| 0 <= i < n && Malformed(parts[..n][i]);
      assert Malformed(parts[..n + 1][i]);
    }
    if Malformed(parts[n]) {
      assert Malformed(parts[..n + 1][n]);
    }
  }

  lemma EmptyEntry()
    ensures EntryOf("") == None
  {
  }

  lemma SplitAtColon(p: string)
    ensures var i := Index(p, ':'); EntryOf(p) == if i < 0 then None else Made(p[..i], p[i + 1..])
  {
  }

  /** The index test refuses only what the emptiness test refuses anyway. */
  lemma EdgeColon(p: string)
    requires Index(p, ':') <= 0 || Index(p, ':') >= |p| - 1
    ensures EntryOf(p).None?
  {
  }

  // ---- printing ----------------------------------------------------------------------------

  predicate CleanId(id: string) {
    id != "" && Trimmed(id) && ':' !in id && ',' !in id
  }

  predicate CleanValue(v: string) {
    v != "" && Trimmed(v) && ',' !in v
  }

  function Print(e: Entry): string {
    e.id + ":" + e.value
  }

  function PrintRing(entries: seq<Entry>): string
    requires entries != []
  {
    Join(Printed(entries), ',')
  }

  function Printed(entries: seq<Entry>): (parts: seq<string>)
    ensures |parts| == |entries|
  {
    seq(|entries|, i requires 0 <= i < |entries| => Print(entries[i]))
  }

  function MapOf(entries: seq<Entry>): map<string, string> {
    if entries == [] then map[]
    else MapOf(entries[..|entries| - 1])[entries[|entries| - 1].id := entries[|entries| - 1].value]
  }

  lemma PrintEntry(e: Entry)
    requires CleanId(e.id) && CleanValue(e.value)
    ensures EntryOf(Print(e)) == Some(e) && ',' !in Print(e) && !Malformed(Print(e))
  {
    IndexAfter(e.id, ':', e.value);
    assert Print(e)[..|e.id|] == e.id && Print(e)[|e.id| + 1..] == e.value;
    TrimTrimmed(e.id);
    TrimTrimmed(e.value);
  }

  lemma {:induction false} BuildPrinted(entries: seq<Entry>)
    requires forall e :: e in entries ==> CleanId(e.id) && CleanValue(e.value)
    ensures Build(Printed(entries)) == MapOf(entries)
  {
    if entries != [] {
      var n := |entries| - 1;
      BuildPrinted(entries[..n]);
      PrintEntry(entries[n]);
      assert Printed(entries)[..n] == Printed(entries[..n]);
    }
  }

  /** Printing clean entries and parsing the text gives the entries back, and refuses none. */
  lemma RingRoundTrip(entries: seq<Entry>)
    requires entries != [] && forall e :: e in entries ==> CleanId(e.id) && CleanValue(e.value)
    ensures !AnyMalformed(Split(PrintRing(entries), ','))
    ensures Build(Split(PrintRing(entries), ',')) == MapOf(entries)
  {
    var parts := Printed(entries);
    forall i | 0 <= i < |parts| ensures ',' !in parts[i] && !Malformed(parts[i]) {
      PrintEntry(entries[i]);
    }
    SplitJoin(parts, ',');
    BuildPrinted(entries);
  }

  /** The ids a ring can hold are clean: trimmed, not empty, and free of both delimiters. */
  lemma {:induction false} RingIdsClean(parts: seq<string>)
    requires forall p :: p in parts ==> ',' !in p
    ensures forall id :: id in Build(parts) ==> CleanId(id) && CleanValue(Build(parts)[id])
  {
    hide EntryOf, CleanId, CleanValue;
    if parts != [] {
      var n := |parts| - 1;
      RingIdsClean(parts[..n]);
      EntryClean(parts[n]);
    }
  }

  lemma EntryClean(part: string)
    requires ',' !in part
    ensures var e := EntryOf(part); e.Some? ==> CleanId(e.value.id) && CleanValue(e.value.value)
  {
    hide Trim;
    var i := Index(part, ':');
    if i >= 0 {
      TrimIdempotent(part[..i]);
      TrimIdempotent(part[i + 1..]);
      TrimKeeps(part[..i], ':');
      TrimKeeps(part[..i], ',');
      TrimKeeps(part[i + 1..], ',');
    }
  }
}
