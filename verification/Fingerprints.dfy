/** Which keysets the fingerprint text pins: the text of a keyset may also be that of another one, and then a
    rotation between the two is taken for no change. */
module Fingerprints {
  import opened GoStrings
  import opened Keysets

  /** No other keyset that the refresh loop can load has this one's text. */
  ghost predicate Pinned(k: Keyset) {
    forall l :: Loadable(l) && FingerprintText(l) == FingerprintText(k) ==> l == k
  }

  function Item(kid: string, secret: string): string {
    "|" + kid + ":" + secret
  }

  predicate Has(k: Keyset, kids: seq<string>) {
    forall kid :: kid in kids ==> kid in k.keys
  }

  lemma {:induction false} ListedConcat(k: Keyset, p: seq<string>, q: seq<string>)
    requires Has(k, p) && Has(k, q)
    ensures Has(k, p + q) && Listed(k, p + q) == Listed(k, p) + Listed(k, q)
  {
    if q == [] {
      assert p + q == p;
    } else {
      var init := q[..|q| - 1];
      ListedConcat(k, p, init);
      assert (p + q)[..|p + q| - 1] == p + init;
    }
  }

  lemma ListedOne(k: Keyset, kid: string)
    requires kid in k.keys
    ensures Listed(k, [kid]) == Item(kid, k.keys[kid])
  {
    assert [kid][..0] == [];
  }

  lemma ListedAt(k: Keyset, kids: seq<string>, i: nat)
    requires Has(k, kids) && i < |kids|
    ensures Listed(k, kids) == Listed(k, kids[..i]) + Item(kids[i], k.keys[kids[i]]) + Listed(k, kids[i + 1..])
  {
    hide Listed, Item;
    assert kids == kids[..i] + [kids[i]] + kids[i + 1..];
    ListedConcat(k, kids[..i], [kids[i]]);
    ListedConcat(k, kids[..i] + [kids[i]], kids[i + 1..]);
    ListedOne(k, kids[i]);
  }

  lemma ListedFirst(k: Keyset, kids: seq<string>)
    requires Has(k, kids) && kids != []
    ensures Listed(k, kids) == Item(kids[0], k.keys[kids[0]]) + Listed(k, kids[1..])
  {
    hide Item;
    ListedAt(k, kids, 0);
    assert Listed(k, kids[..0]) == "";
  }

  lemma {:induction false} ListedSame(k: Keyset, l: Keyset, kids: seq<string>)
    requires Has(k, kids) && Has(l, kids) && forall kid :: kid in kids ==> k.keys[kid] == l.keys[kid]
    ensures Listed(k, kids) == Listed(l, kids)
  {
    if kids != [] {
      ListedSame(k, l, kids[..|kids| - 1]);
      assert kids[|kids| - 1] in kids;
    }
  }

  lemma TextOf(k: Keyset)
    ensures var p := SortedKids(k);
            && Has(k, p) && FingerprintText(k) == k.activeKID + Listed(k, p)
            && (WellFormed(k) ==> p != [] && k.activeKID in p)
  {
    hide Sorted, Listed;
    assert k.activeKID in SortedKids(k) <==> k.activeKID in k.keys.Keys;
  }

  // ---- the twin of a keyset with a spare kid ----------------------------------------------------------

  /** Some kid that is not the active one comes after another. */
  ghost predicate Spare(k: Keyset) {
    exists a, b :: a in k.keys && b in k.keys && a != b && LexLeq(a, b) && b != k.activeKID
  }

  /** The keyset without `kid`, its entry's text moved into the secret of `prev`. */
  function Merged(k: Keyset, prev: string, kid: string): Keyset
    requires prev in k.keys && kid in k.keys
  {
    Keyset(k.activeKID, (k.keys - {kid})[prev := k.keys[prev] + Item(kid, k.keys[kid])])
  }

  lemma WithoutSorted(p: seq<string>, i: nat)
    requires Sorted(p) && i < |p|
    ensures Sorted(p[..i] + p[i + 1..])
  {
    var q := p[..i] + p[i + 1..];
    forall a, b | 0 <= a < b < |q| ensures LexLeq(q[a], q[b]) {
      var c, d := if a < i then a else a + 1, if b < i then b else b + 1;
      assert q[a] == p[c] && q[b] == p[d];
    }
  }

  lemma WithoutEnumerates(p: seq<string>, i: nat, keys: set<string>)
    requires Enumerates(p, keys) && i < |p|
    ensures Enumerates(p[..i] + p[i + 1..], keys - {p[i]})
  {
    var q := p[..i] + p[i + 1..];
    assert p == p[..i] + [p[i]] + p[i + 1..];
    forall a, b | 0 <= a < b < |q| ensures q[a] != q[b] {
      var c, d := if a < i then a else a + 1, if b < i then b else b + 1;
      assert q[a] == p[c] && q[b] == p[d];
    }
    forall x ensures x in q <==> x in keys - {p[i]} {
      assert x in p <==> x in q || x == p[i];
      assert forall a :: 0 <= a < |q| ==> q[a] == p[if a < i then a else a + 1] != p[i];
    }
  }

  lemma MergedListed(k: Keyset, a: seq<string>, x: string, y: string, c: seq<string>)
    requires x in k.keys && y in k.keys && x != y && Has(k, a + c)
    requires x !in a + c && y !in a + c
    ensures var t := Merged(k, x, y);
            Has(t, a + [x] + c) && Has(k, a + [x, y] + c) && Listed(t, a + [x] + c) == Listed(k, a + [x, y] + c)
  {
    hide Listed, Item;
    var t := Merged(k, x, y);
    ListedSame(k, t, a);
    ListedSame(k, t, c);
    ListedConcat(t, a, [x]);
    ListedConcat(t, a + [x], c);
    ListedConcat(k, [x], [y]);
    assert [x] + [y] == [x, y];
    ListedConcat(k, a, [x, y]);
    ListedConcat(k, a + [x, y], c);
    ListedOne(t, x);
    ListedOne(k, x);
    ListedOne(k, y);
    ItemLonger(x, k.keys[x], Item(y, k.keys[y]));
  }

  lemma ItemLonger(kid: string, secret: string, more: string)
    ensures Item(kid, secret + more) == Item(kid, secret) + more
  {
  }

  lemma MergedText(k: Keyset, i: nat)
    requires 1 <= i < |SortedKids(k)|
    ensures var p := SortedKids(k);
            p[i - 1] in k.keys && p[i] in k.keys && FingerprintText(Merged(k, p[i - 1], p[i])) == FingerprintText(k)
  {
    hide Sorted, LexLeq, Listed, Item;
    var p := SortedKids(k);
    assert p[i - 1] in p && p[i] in p;
    var a, x, y, c := p[..i - 1], p[i - 1], p[i], p[i + 1..];
    var t := Merged(k, x, y);
    assert p == a + [x, y] + c && p[..i] + p[i + 1..] == a + [x] + c;
    WithoutSorted(p, i);
    WithoutEnumerates(p, i, k.keys.Keys);
    assert t.keys.Keys == k.keys.Keys - {y};
    SortedKidsAre(t, a + [x] + c);
    MergedListed(k, a, x, y, c);
  }

  lemma SpareIndex(k: Keyset) returns (i: nat)
    requires Spare(k)
    ensures 1 <= i < |SortedKids(k)| && SortedKids(k)[i] != k.activeKID
  {
    hide Sorted, LexLeq;
    var a, b :| a in k.keys && b in k.keys && a != b && LexLeq(a, b) && b != k.activeKID;
    var p := SortedKids(k);
    assert a in p && b in p;
    i :| 0 <= i < |p| && p[i] == b;
    if i == 0 {
      LeastFirst(p, a);
      LexAntisymmetric(a, b);
    }
  }

  lemma MergedWellFormed(k: Keyset, prev: string, kid: string)
    requires WellFormed(k) && prev in k.keys && kid in k.keys && prev != kid && kid != k.activeKID
    ensures WellFormed(Merged(k, prev, kid)) && Merged(k, prev, kid) != k
    ensures Loadable(k) ==> Loadable(Merged(k, prev, kid))
  {
    hide Blank, Trimmed, Item;
    var t := Merged(k, prev, kid);
    if Loadable(k) {
      TrimmedEnds(k.keys[prev], "|" + kid + ":", k.keys[kid]);
      assert t.keys[prev] == k.keys[prev] + ("|" + kid + ":") + k.keys[kid] by { ItemOf(kid, k.keys[kid]); }
    }
  }

  lemma ItemOf(kid: string, secret: string)
    ensures forall s: string :: s + Item(kid, secret) == s + ("|" + kid + ":") + secret
  {
  }

  lemma TrimmedEnds(a: string, mid: string, b: string)
    requires a != "" && b != "" && Trimmed(a) && Trimmed(b)
    ensures Trimmed(a + mid + b)
  {
  }

  /** Every well-formed keyset with a spare kid has a well-formed twin, loadable if it is: another keyset with the
      same text. */
  lemma SpareTwin(k: Keyset) returns (t: Keyset)
    requires WellFormed(k) && Spare(k)
    ensures WellFormed(t) && (Loadable(k) ==> Loadable(t)) && t != k && FingerprintText(t) == FingerprintText(k)
  {
    hide Sorted, LexLeq, Listed, FingerprintText, Spare, Merged, WellFormed, Loadable;
    var i := SpareIndex(k);
    var p := SortedKids(k);
    MergedText(k, i);
    t := Merged(k, p[i - 1], p[i]);
    MergedWellFormed(k, p[i - 1], p[i]);
  }

  // ---- one key ----------------------------------------------------------------------------------------

  /** The secret of `kid` reads as a shorter secret and an entry for a later kid. */
  predicate SplitsAs(kid: string, secret: string, u: string, n: string, v: string) {
    && secret == u + Item(n, v) && u != "" && v != "" && !Blank(n) && n != kid && LexLeq(kid, n)
    && Trimmed(u) && Trimmed(n) && Trimmed(v)
  }

  ghost predicate Splits(kid: string, secret: string) {
    exists u, n, v :: SplitsAs(kid, secret, u, n, v)
  }

  lemma {:induction false} LexPrefix(a: string, b: string)
    ensures LexLeq(a, a + b)
  {
    if a != "" {
      LexPrefix(a[1..], b);
      assert (a + b)[1..] == a[1..] + b;
    }
  }

  /** Two texts cut at a separator, the first of them at its first one. */
  lemma FirstCut(a: string, x: string, b: string, y: string, sep: char) returns (m: string)
    requires sep !in a && a + [sep] + x == b + [sep] + y
    ensures (b == a && y == x && m == "") || (b == a + [sep] + m && x == m + [sep] + y)
  {
    var s := a + [sep] + x;
    assert s[|b|] == sep && s[..|b|] == b && s[|b| + 1..] == y && s[|a| + 1..] == x;
    assert forall i :: 0 <= i < |a| ==> s[i] == a[i];
    if |b| == |a| {
      m := "";
    } else {
      m := s[|a| + 1..|b|];
      assert x == m + [sep] + y;
    }
  }

  /** What follows the bar that opens a non-empty list. */
  function Unbarred(k: Keyset, kids: seq<string>): string
    requires Has(k, kids) && kids != []
  {
    kids[0] + ":" + (k.keys[kids[0]] + Listed(k, kids[1..]))
  }

  lemma ListedBar(k: Keyset, kids: seq<string>)
    requires Has(k, kids) && kids != []
    ensures Listed(k, kids) == "|" + Unbarred(k, kids)
  {
    hide Listed;
    ListedFirst(k, kids);
  }

  /** A reading that keeps the active kid is the keyset itself or splits the secret. */
  lemma SameActive(kid: string, secret: string, l: Keyset)
    requires ':' !in kid && Loadable(l) && l.activeKID == kid && Trimmed(secret)
    requires var p := SortedKids(l); Has(l, p) && p != [] && Unbarred(l, p) == kid + ":" + secret
    ensures l == Keyset(kid, map[kid := secret]) || Splits(kid, secret)
  {
    hide Sorted, LexLeq, Listed, Blank, Trimmed;
    var p := SortedKids(l);
    var m := FirstCut(kid, secret, p[0], l.keys[p[0]] + Listed(l, p[1..]), ':');
    assert kid in p;
    LeastFirst(p, kid);
    if p[0] != kid {
      LexPrefix(kid, ":" + m);
      assert p[0] == kid + (":" + m);
      LexAntisymmetric(kid, p[0]);
    } else if |p| == 1 {
      OneKey(l, p);
      assert secret == l.keys[kid];
    } else {
      ListedFirst(l, p[1..]);
      var v := l.keys[p[1]] + Listed(l, p[2..]);
      assert p[1..][1..] == p[2..];
      ItemLonger(p[1], l.keys[p[1]], Listed(l, p[2..]));
      SecondLater(l, p);
      assert secret == l.keys[kid] + Item(p[1], v);
      RestTrimmed(l.keys[kid], p[1], l.keys[p[1]], Listed(l, p[2..]));
      assert SplitsAs(kid, secret, l.keys[kid], p[1], v);
    }
  }

  /** What follows the colon ends where the whole secret ends. */
  lemma RestTrimmed(u: string, n: string, t: string, y: string)
    requires t != "" && Trimmed(t) && Trimmed(u + Item(n, t + y))
    ensures Trimmed(t + y)
  {
    var whole, v := u + Item(n, t + y), t + y;
    assert whole[|whole| - 1] == v[|v| - 1];
  }

  lemma OneKey(l: Keyset, p: seq<string>)
    requires Enumerates(p, l.keys.Keys) && |p| == 1
    ensures p[0] in l.keys && l.keys == map[p[0] := l.keys[p[0]]] && Listed(l, p[1..]) == ""
  {
    assert p[0] in p;
    assert forall x :: x in l.keys ==> x in p;
  }

  lemma SecondLater(l: Keyset, p: seq<string>)
    requires WellFormed(l) && Sorted(p) && Enumerates(p, l.keys.Keys) && |p| > 1
    ensures p[0] in l.keys && p[1] in l.keys && !Blank(p[1]) && p[1] != p[0] && LexLeq(p[0], p[1])
    ensures l.keys[p[0]] != "" && l.keys[p[1]] != ""
  {
    assert p[0] in p && p[1] in p;
  }

  /** A reading with a longer active kid splits the secret. */
  lemma LongerActive(kid: string, secret: string, l: Keyset, s1: string)
    requires kid != "" && Trimmed(kid) && Trimmed(secret)
    requires Loadable(l) && l.activeKID == kid + "|" + (kid + ":" + s1)
    requires Has(l, SortedKids(l)) && secret == s1 + Listed(l, SortedKids(l))
    ensures Splits(kid, secret)
  {
    hide Sorted, LexLeq, Listed, Blank, Trimmed;
    var p := SortedKids(l);
    assert l.activeKID in p;
    var j :| 0 <= j < |p| && p[j] == l.activeKID;
    ListedAt(l, p, j);
    var bar, y, t := Listed(l, p[..j]) + "|", Listed(l, p[j + 1..]), l.keys[p[j]];
    assert bar[0] == '|' by { BarFirst(l, p[..j]); }
    var u, n, v := s1 + bar + kid, kid + ":" + s1, t + y;
    assert secret == u + Item(n, v) by { Reread(s1, Listed(l, p[..j]), kid, t, y); }
    LongerTrimmed(kid, s1, bar, Item(n, v));
    RestTrimmed(u, n, t, y);
    assert !Blank(n) by { ColonNotBlank(n); }
    assert LexLeq(kid, n) by {
      LexPrefix(kid, ":" + s1);
      assert n == kid + (":" + s1);
    }
    assert SplitsAs(kid, secret, u, n, v);
  }

  lemma BarFirst(l: Keyset, kids: seq<string>)
    requires Has(l, kids)
    ensures (Listed(l, kids) + "|")[0] == '|'
  {
    hide Listed;
    if kids == [] {
      ListedNone(l);
    } else {
      ListedBar(l, kids);
    }
  }

  lemma Reread(s1: string, x: string, kid: string, t: string, y: string)
    ensures s1 + (x + Item(kid + "|" + (kid + ":" + s1), t) + y) == s1 + (x + "|") + kid + Item(kid + ":" + s1, t + y)
  {
  }

  lemma LongerTrimmed(kid: string, s1: string, x: string, rest: string)
    requires kid != "" && Trimmed(kid) && Trimmed(kid + "|" + (kid + ":" + s1))
    requires x != "" && x[0] == '|' && Trimmed(s1 + x + kid + rest)
    ensures Trimmed(s1 + x + kid) && Trimmed(kid + ":" + s1)
  {
    var u, n, whole, active := s1 + x + kid, kid + ":" + s1, s1 + x + kid + rest, kid + "|" + (kid + ":" + s1);
    assert u[|u| - 1] == kid[|kid| - 1] && u[0] == whole[0];
    assert n[0] == kid[0] && n[|n| - 1] == active[|active| - 1];
  }

  lemma ColonNotBlank(n: string)
    requires ':' in n
    ensures !Blank(n)
  {
    hide Trim;
    TrimKeeps(n, ':');
  }

  lemma SingleText(kid: string, secret: string)
    ensures FingerprintText(Keyset(kid, map[kid := secret])) == kid + "|" + (kid + ":" + secret)
  {
    hide LexLeq;
    var k := Keyset(kid, map[kid := secret]);
    SortedKidsAre(k, [kid]);
    ListedOne(k, kid);
  }

  lemma SingleReadings(kid: string, secret: string, l: Keyset)
    requires '|' !in kid && ':' !in kid && kid != "" && Trimmed(kid) && Trimmed(secret) && Loadable(l)
    requires FingerprintText(l) == FingerprintText(Keyset(kid, map[kid := secret]))
    ensures l == Keyset(kid, map[kid := secret]) || Splits(kid, secret)
  {
    hide Sorted, LexLeq, Listed, Blank, FingerprintText, Unbarred, Splits, Trimmed;
    SingleText(kid, secret);
    TextOf(l);
    var p := SortedKids(l);
    ListedBar(l, p);
    var m := FirstCut(kid, kid + ":" + secret, l.activeKID, Unbarred(l, p), '|');
    assert l.activeKID + "|" + Unbarred(l, p) == FingerprintText(l);
    if l.activeKID == kid {
      SameActive(kid, secret, l);
    } else {
      BarAfterColon(kid, secret, m, Unbarred(l, p));
      var s1 := m[|kid| + 1..];
      LongerActive(kid, secret, l, s1);
    }
  }

  lemma BarAfterColon(kid: string, secret: string, m: string, rest: string)
    requires '|' !in kid && kid + ":" + secret == m + "|" + rest
    ensures |m| > |kid| && m == kid + ":" + m[|kid| + 1..] && secret == m[|kid| + 1..] + "|" + rest
  {
    var s := kid + ":" + secret;
    assert s[|m|] == '|' && s[|kid|] == ':';
    assert forall i :: 0 <= i < |kid| ==> s[i] == kid[i];
    assert m == s[..|m|] && secret == s[|kid| + 1..];
  }

  /** A keyset of one delimiter-free kid is pinned exactly when its secret does not split. */
  lemma SinglePinnedIff(kid: string, secret: string)
    requires Loadable(Keyset(kid, map[kid := secret])) && '|' !in kid && ':' !in kid
    ensures Pinned(Keyset(kid, map[kid := secret])) <==> !Splits(kid, secret)
  {
    hide LexLeq, Listed, Trim, FingerprintText, Splits, Trimmed;
    var k := Keyset(kid, map[kid := secret]);
    BlankEmpty();
    assert kid in k.keys;
    if Splits(kid, secret) {
      var t := SplitTwin(kid, secret);
    } else {
      forall l | Loadable(l) && FingerprintText(l) == FingerprintText(k) ensures l == k {
        SingleReadings(kid, secret, l);
      }
    }
  }

  lemma SplitTwin(kid: string, secret: string) returns (t: Keyset)
    requires Loadable(Keyset(kid, map[kid := secret])) && Splits(kid, secret)
    ensures var k := Keyset(kid, map[kid := secret]); Loadable(t) && t != k && FingerprintText(t) == FingerprintText(k)
  {
    hide LexLeq, Listed, Blank, Trimmed;
    var u, n, v :| SplitsAs(kid, secret, u, n, v);
    t := Keyset(kid, map[kid := u, n := v]);
    assert kid in Keyset(kid, map[kid := secret]).keys;
    assert n in t.keys;
    TwoText(t, kid, n);
    SingleText(kid, secret);
  }

  lemma TwoText(t: Keyset, x: string, y: string)
    requires x != y && t.keys.Keys == {x, y} && LexLeq(x, y)
    ensures SortedKids(t) == [x, y] && Listed(t, [x, y]) == Item(x, t.keys[x]) + Item(y, t.keys[y])
    ensures FingerprintText(t) == t.activeKID + "|" + (x + ":" + t.keys[x]) + "|" + (y + ":" + t.keys[y])
  {
    hide LexLeq, Listed;
    SortedKidsAre(t, [x, y]);
    ListedConcat(t, [x], [y]);
    assert [x] + [y] == [x, y];
    ListedOne(t, x);
    ListedOne(t, y);
  }

  // ---- no bars, and no colon in a kid -----------------------------------------------------------------

  predicate SlidesAs(k: Keyset, kid: string, u: string, v: string) {
    && kid in k.keys && kid != k.activeKID && k.keys[kid] == u + ":" + v && v != ""
    && LexLeq(kid + ":" + u, k.activeKID) && Trimmed(kid + ":" + u) && Trimmed(v)
  }

  /** A colon in the secret of a kid that is not active can be taken for the end of that kid. */
  ghost predicate Slides(k: Keyset) {
    exists kid, u, v :: SlidesAs(k, kid, u, v)
  }

  lemma LaterActive(k: Keyset, i: nat)
    requires 1 <= i < |SortedKids(k)| && !Spare(k)
    ensures SortedKids(k)[i] == k.activeKID
  {
    hide LexLeq;
    var p := SortedKids(k);
    assert p[i - 1] in p && p[i] in p;
  }

  lemma AtMostTwo(k: Keyset)
    requires WellFormed(k) && !Spare(k)
    ensures var p := SortedKids(k);
            p == [k.activeKID] || (|p| == 2 && p[1] == k.activeKID && p[0] != k.activeKID)
  {
    hide LexLeq, Blank;
    var p := SortedKids(k);
    assert k.activeKID in p;
    assert |p| == 1 ==> p[0] == k.activeKID;
    if |p| > 1 {
      LaterActive(k, 1);
      assert p[0] != p[1];
    }
    if |p| > 2 {
      LaterActive(k, 2);
    }
  }

  function Text(l: Keyset, kid: string): string
    requires kid in l.keys
  {
    kid + ":" + l.keys[kid]
  }

  /** The bars cut what a list holds into the pieces of its entries. */
  lemma UnbarredPieces(l: Keyset, p: seq<string>)
    requires Has(l, p) && p != []
    ensures Split(Unbarred(l, p), '|') ==
            if |p| == 1 then Split(Text(l, p[0]), '|') else Split(Text(l, p[0]), '|') + Split(Unbarred(l, p[1..]), '|')
  {
    hide Listed, Split;
    if |p| == 1 {
      ListedNone(l);
      assert Unbarred(l, p) == Text(l, p[0]);
    } else {
      ListedBar(l, p[1..]);
      assert Unbarred(l, p) == Text(l, p[0]) + "|" + Unbarred(l, p[1..]);
      SplitConcat(Text(l, p[0]), '|', Unbarred(l, p[1..]));
    }
  }

  lemma TextPieces(l: Keyset)
    requires WellFormed(l)
    ensures var p := SortedKids(l);
            && Has(l, p) && p != []
            && Split(FingerprintText(l), '|') == Split(l.activeKID, '|') + Split(Unbarred(l, p), '|')
  {
    hide Listed, Split, Sorted, Unbarred, Blank;
    var p := SortedKids(l);
    TextOf(l);
    ListedBar(l, p);
    assert FingerprintText(l) == l.activeKID + "|" + Unbarred(l, p);
    SplitConcat(l.activeKID, '|', Unbarred(l, p));
  }

  lemma ThreePieces(k: Keyset, x: string)
    requires Delimited(k) && SortedKids(k) == [x, k.activeKID] && x in k.keys && k.activeKID in k.keys
    ensures Split(FingerprintText(k), '|') == [k.activeKID, Text(k, x), Text(k, k.activeKID)]
    ensures Split(Text(k, x) + "|" + Text(k, k.activeKID), '|') == [Text(k, x), Text(k, k.activeKID)]
  {
    hide Listed, Split, Sorted, LexLeq;
    var b := k.activeKID;
    var e, f := Text(k, x), Text(k, b);
    ListedConcat(k, [x], [b]);
    assert [x] + [b] == [x, b];
    ListedOne(k, x);
    ListedOne(k, b);
    assert FingerprintText(k) == b + "|" + (e + "|" + f);
    SplitAt(b, '|', e + "|" + f);
    SplitAt(e, '|', f);
    SplitFree(f, '|');
  }

  lemma OneEntry(k: Keyset, x: string, l: Keyset)
    requires Delimited(k) && SortedKids(k) == [x, k.activeKID] && x != k.activeKID
    requires x in k.keys && k.activeKID in k.keys
    requires WellFormed(l) && |SortedKids(l)| == 1
    ensures FingerprintText(l) != FingerprintText(k)
  {
    hide Listed, Split, Sorted, LexLeq, FingerprintText, Unbarred, Blank;
    var a, b := l.activeKID, k.activeKID;
    assert a in SortedKids(l);
    TextPieces(l);
    UnbarredPieces(l, SortedKids(l));
    ThreePieces(k, x);
    if FingerprintText(l) == FingerprintText(k) {
      assert Split(a, '|') + Split(Text(l, a), '|') == [b, Text(k, x), Text(k, b)];
      if '|' in a {
        assert |Split(a, '|')| != 1 by { if |Split(a, '|')| == 1 { SplitSingle(a, '|'); } }
        BarStays(l, a);
        SplitSingle(Text(l, a), '|');
      } else {
        SplitFree(a, '|');
        FirstPiece(a, Split(Text(l, a), '|'), [b, Text(k, x), Text(k, b)]);
        var rest := Text(k, x) + "|" + Text(k, b);
        assert Split(Text(l, a), '|') == Split(rest, '|');
        JoinSplit(Text(l, a), '|');
        JoinSplit(rest, '|');
        assert rest == x + ":" + (k.keys[x] + "|" + Text(k, b));
        ColonSplit(b, l.keys[b], x, k.keys[x] + "|" + Text(k, b));
      }
    }
  }

  lemma BarStays(l: Keyset, kid: string)
    requires kid in l.keys && '|' in kid
    ensures '|' in Text(l, kid)
  {
    var i :| 0 <= i < |kid| && kid[i] == '|';
    assert Text(l, kid)[i] == '|';
  }

  lemma FirstPiece(x: string, rest: seq<string>, all: seq<string>)
    requires [x] + rest == all
    ensures x == all[0] && rest == all[1..]
  {
    assert ([x] + rest)[1..] == rest;
  }

  lemma ManyEntries(k: Keyset, x: string, l: Keyset)
    requires Delimited(k) && SortedKids(k) == [x, k.activeKID] && x in k.keys && k.activeKID in k.keys
    requires WellFormed(l) && |SortedKids(l)| > 2
    ensures FingerprintText(l) != FingerprintText(k)
  {
    hide Listed, Split, Sorted, LexLeq, FingerprintText, Unbarred, Blank;
    var p := SortedKids(l);
    TextPieces(l);
    UnbarredPieces(l, p);
    UnbarredPieces(l, p[1..]);
    ThreePieces(k, x);
  }

  lemma TwoEntries(k: Keyset, x: string, l: Keyset)
    requires Delimited(k) && SortedKids(k) == [x, k.activeKID] && x != k.activeKID
    requires x in k.keys && k.activeKID in k.keys
    requires Loadable(l) && |SortedKids(l)| == 2 && FingerprintText(l) == FingerprintText(k)
    ensures l == k || Slides(k)
  {
    hide Listed, Split, Sorted, LexLeq, FingerprintText, Unbarred, Blank, Trimmed;
    var p, b := SortedKids(l), k.activeKID;
    TextPieces(l);
    UnbarredPieces(l, p);
    UnbarredPieces(l, p[1..]);
    ThreePieces(k, x);
    assert Split(l.activeKID, '|') + (Split(Text(l, p[0]), '|') + Split(Text(l, p[1]), '|'))
           == [b, Text(k, x), Text(k, b)];
    SplitSingle(l.activeKID, '|');
    SplitSingle(Text(l, p[0]), '|');
    SplitSingle(Text(l, p[1]), '|');
    FirstPiece(l.activeKID, [Text(l, p[0])] + [Text(l, p[1])], [b, Text(k, x), Text(k, b)]);
    FirstPiece(Text(l, p[0]), [Text(l, p[1])], [Text(k, x), Text(k, b)]);
    var m := FirstCut(x, k.keys[x], p[0], l.keys[p[0]], ':');
    assert b in p && p[0] != b;
    assert l.keys[p[1]] == k.keys[b] by {
      assert Text(l, b)[|b| + 1..] == l.keys[b] && Text(k, b)[|b| + 1..] == k.keys[b];
    }
    SecondLater(l, p);
    if p[0] == x {
      TwoKeys(k, l, x);
    } else {
      assert SlidesAs(k, x, m, l.keys[p[0]]);
    }
  }

  lemma TwoKeys(k: Keyset, l: Keyset, x: string)
    requires SortedKids(k) == SortedKids(l) == [x, k.activeKID] && x in k.keys && k.activeKID in k.keys
    requires x in l.keys && k.activeKID in l.keys
    requires l.keys[x] == k.keys[x] && l.keys[k.activeKID] == k.keys[k.activeKID]
    ensures l.keys == k.keys
  {
    hide Sorted;
    assert forall y :: y in k.keys ==> y in SortedKids(k);
    assert forall y :: y in l.keys ==> y in SortedKids(l);
  }

  lemma SlideTwin(k: Keyset, x: string) returns (t: Keyset)
    requires Loadable(k) && Delimited(k) && SortedKids(k) == [x, k.activeKID] && x != k.activeKID && Slides(k)
    ensures Loadable(t) && t != k && FingerprintText(t) == FingerprintText(k)
  {
    hide Listed, LexLeq, Blank, Trimmed;
    var b := k.activeKID;
    var kid, u, v :| SlidesAs(k, kid, u, v);
    assert kid in SortedKids(k) && x in SortedKids(k) && b in SortedKids(k);
    assert forall y :: y in k.keys ==> y in SortedKids(k);
    var n := x + ":" + u;
    t := Keyset(b, map[n := v, b := k.keys[b]]);
    assert ':' in n && n !in k.keys;
    ColonNotBlank(n);
    TwoText(t, n, b);
    TwoText(k, x, b);
    assert n + ":" + v == x + ":" + k.keys[x];
  }

  /** A loadable keyset without the delimiters that the text uses is pinned exactly when it has no spare kid and no
      colon that slides: it has one key, or two of which the later is the active one. */
  lemma DelimitedPinnedIff(k: Keyset)
    requires Loadable(k) && Delimited(k)
    ensures Pinned(k) <==> !Spare(k) && !Slides(k)
  {
    hide Listed, LexLeq, Blank, FingerprintText, Sorted, Spare, Slides, Delimited, WellFormed, Trimmed;
    if Spare(k) {
      var t := SpareTwin(k);
    } else {
      AtMostTwo(k);
      if |SortedKids(k)| == 1 {
        OnePinned(k);
      } else if Slides(k) {
        var t := SlideTwin(k, SortedKids(k)[0]);
      } else {
        forall l | Loadable(l) && FingerprintText(l) == FingerprintText(k) ensures l == k {
          TwoReadings(k, SortedKids(k)[0], l);
        }
      }
    }
  }

  lemma OnePinned(k: Keyset)
    requires Loadable(k) && Delimited(k) && SortedKids(k) == [k.activeKID]
    ensures Pinned(k) && !Slides(k)
  {
    hide Listed, LexLeq, Blank, FingerprintText, Sorted, Pinned;
    OneKey(k, SortedKids(k));
    SinglePinnedIff(k.activeKID, k.keys[k.activeKID]);
    if Splits(k.activeKID, k.keys[k.activeKID]) {
      SplitsAtBar(k.activeKID, k.keys[k.activeKID]);
    }
  }

  lemma SplitsAtBar(kid: string, secret: string)
    requires Splits(kid, secret)
    ensures '|' in secret
  {
    hide LexLeq, Blank;
    var u, n, v :| SplitsAs(kid, secret, u, n, v);
    assert secret[|u|] == '|';
  }

  lemma TwoReadings(k: Keyset, x: string, l: Keyset)
    requires WellFormed(k) && Delimited(k) && SortedKids(k) == [x, k.activeKID] && x != k.activeKID && !Slides(k)
    requires Loadable(l) && FingerprintText(l) == FingerprintText(k)
    ensures l == k
  {
    hide Listed, LexLeq, Blank, FingerprintText, Sorted, Slides, Delimited, Trimmed;
    assert x in SortedKids(k);
    TextOf(l);
    var n := |SortedKids(l)|;
    if n == 1 {
      OneEntry(k, x, l);
    } else if n == 2 {
      TwoEntries(k, x, l);
    } else {
      ManyEntries(k, x, l);
    }
  }
}
