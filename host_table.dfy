/** The locality table of the simple scheduler: a map from a host (IP) string to
    the backends (impalads) running at that host, the order in which its
    entries are visited, and the round-robin cursor over those entries.
    The hash map's unspecified iteration order is replaced by an explicit
    sequence of keys. */
module HostTable {
  // Proof style: the inductive lemmas below hide `Build` and `Flatten` with
  // `hide` and unfold them one step at a time through `BuildLast` and
  // `FlattenLast`; small sequence and map facts are lemmas of their own,
  // called where needed. Both keep each proof's context small enough for
  // the solver to finish quickly, and neither changes what is proved.

  /** A network address: a backend, or the location of a block of data. */
  datatype Addr = Addr(host: string, port: int)

  /** The scheduler's table: `groups` maps each host to its co-located
      backends (front = next to hand out), `order` lists the keys in
      iteration order, `cursor` indexes `order` and names the entry that
      serves the next non-local assignment. */
  datatype Table = Table(groups: map<string, seq<Addr>>, order: seq<string>, cursor: nat)

  predicate Distinct(s: seq<string>) {
    forall i, j :: 0 <= i < j < |s| ==> s[i] != s[j]
  }

  /** The table's invariant: `order` enumerates the keys exactly once, no
      group is empty, and the cursor points at an entry whenever there is one. */
  ghost predicate WellFormed(t: Table) {
    && Distinct(t.order)
    && (forall k :: k in t.groups <==> k in t.order)
    && (forall k :: k in t.groups ==> |t.groups[k]| > 0)
    && (if |t.order| == 0 then t.cursor == 0 else t.cursor < |t.order|)
  }

  /** Two well-formed tables with the same key order have the same keys. */
  lemma SameKeys(t: Table, t': Table)
    requires WellFormed(t) && WellFormed(t') && t'.order == t.order
    ensures t'.groups.Keys == t.groups.Keys
  {}

  /** Moves the front backend of a group to its back. */
  function Rotate(g: seq<Addr>): (r: seq<Addr>)
    requires |g| > 0
    ensures |r| == |g|
  {
    g[1..] + [g[0]]
  }

  /** A rotation shifts every backend one place to the front, puts the front
      one last, and keeps the same backends. */
  lemma RotateMoves(g: seq<Addr>)
    requires |g| > 0
    ensures Rotate(g)[|g| - 1] == g[0]
    ensures forall i :: 0 <= i < |g| - 1 ==> Rotate(g)[i] == g[i + 1]
    ensures multiset(Rotate(g)) == multiset(g)
  {
    assert g == [g[0]] + g[1..];
  }

  /** `h` is `g` turned round by some number of places: a suffix of `g`
      followed by the prefix before it. */
  ghost predicate IsRotation(h: seq<Addr>, g: seq<Addr>) {
    exists r :: 0 <= r < |g| && h == g[r..] + g[..r]
  }

  /** Rotating a turned-round group turns it round by one more place, so the
      cyclic order of a group is never disturbed. */
  lemma RotateKeepsCycle(g: seq<Addr>, h: seq<Addr>)
    requires IsRotation(h, g)
    ensures IsRotation(Rotate(h), g)
  {
    var r :| 0 <= r < |g| && h == g[r..] + g[..r];
    RotateStep(g, r + 1);
    if r + 1 == |g| {
      WholeRotation(g);
      assert Rotate(h) == g[0..] + g[..0];
    } else {
      assert Rotate(h) == g[r + 1..] + g[..r + 1];
    }
  }

  /** A group of one is its own rotation. */
  lemma RotateSingle(g: seq<Addr>)
    requires |g| == 1
    ensures Rotate(g) == g
  {}

  /** The backends of `backends` whose host is `h`, in their original order. */
  function OnHost(backends: seq<Addr>, h: string): (r: seq<Addr>)
    ensures forall a :: a in r <==> a in backends && a.host == h
    decreases |backends|
  {
    if |backends| == 0 then []
    else
      var last := backends[|backends| - 1];
      assert backends == backends[..|backends| - 1] + [last];
      OnHost(backends[..|backends| - 1], h) + (if last.host == h then [last] else [])
  }

  /** The table built from a list of backends, one backend at a time, as a
      membership update or the static-mode constructor fills the map:
      each backend is appended to the group of its host, a host seen for the
      first time gets a new entry at the end of the key order, and the cursor
      starts at the first entry. */
  function Build(backends: seq<Addr>): (t: Table)
    ensures WellFormed(t) && t.cursor == 0
    decreases |backends|
  {
    if |backends| == 0 then Table(map[], [], 0)
    else
      var prev := Build(backends[..|backends| - 1]);
      var b := backends[|backends| - 1];
      if b.host in prev.groups then
        Table(prev.groups[b.host := prev.groups[b.host] + [b]], prev.order, 0)
      else
        Table(prev.groups[b.host := [b]], prev.order + [b.host], 0)
  }

  /** Every backend of the table: the groups concatenated in key order. */
  function Flatten(groups: map<string, seq<Addr>>, order: seq<string>): (r: seq<Addr>)
    requires forall k :: k in order ==> k in groups
    ensures forall k :: k in order ==> multiset(groups[k]) <= multiset(r)
    decreases |order|
  {
    if |order| == 0 then []
    else Flatten(groups, order[..|order| - 1]) + groups[order[|order| - 1]]
  }

  /** The last backend joins the group of its host in the table the others
      build, opening a new entry at the end of the key order if the host is
      new. */
  lemma BuildLast(backends: seq<Addr>)
    requires |backends| > 0
    ensures var prev := Build(backends[..|backends| - 1]); var b := backends[|backends| - 1];
            b.host in prev.groups ==>
              Build(backends).groups == prev.groups[b.host := prev.groups[b.host] + [b]]
              && Build(backends).order == prev.order
    ensures var prev := Build(backends[..|backends| - 1]); var b := backends[|backends| - 1];
            b.host !in prev.groups ==>
              Build(backends).groups == prev.groups[b.host := [b]]
              && Build(backends).order == prev.order + [b.host]
  {
    hide WellFormed;
  }

  /** A flattening ends with the group of the last listed key. */
  lemma FlattenLast(groups: map<string, seq<Addr>>, order: seq<string>)
    requires forall k :: k in order ==> k in groups
    requires |order| > 0
    ensures Flatten(groups, order) == Flatten(groups, order[..|order| - 1]) + groups[order[|order| - 1]]
  {}

  /** Building groups every backend under its own host: a host has an entry
      exactly when some backend runs there, and that entry lists exactly the
      backends on the host, in the order they were given. */
  lemma {:induction false} BuildGroups(backends: seq<Addr>, h: string)
    ensures h in Build(backends).groups <==> OnHost(backends, h) != []
    ensures h in Build(backends).groups ==> Build(backends).groups[h] == OnHost(backends, h)
    decreases |backends|
  {
    if |backends| > 0 {
      BuildGroups(backends[..|backends| - 1], h);
    }
  }

  /** A flattening reads only the groups of the keys it lists. */
  lemma {:induction false} FlattenIgnoresOtherKeys(groups: map<string, seq<Addr>>, order: seq<string>, h: string, g: seq<Addr>)
    requires forall k :: k in order ==> k in groups
    requires h !in order
    ensures Flatten(groups[h := g], order) == Flatten(groups, order)
    decreases |order|
  {
    if |order| > 0 {
      FlattenIgnoresOtherKeys(groups, order[..|order| - 1], h, g);
    }
  }

  /** Replacing the group of one listed key replaces its backends, and only
      those, in the flattening. */
  lemma {:induction false} FlattenReplace(groups: map<string, seq<Addr>>, order: seq<string>, h: string, g: seq<Addr>)
    requires forall k :: k in order ==> k in groups
    requires Distinct(order) && h in order
    ensures multiset(Flatten(groups[h := g], order)) + multiset(groups[h])
         == multiset(Flatten(groups, order)) + multiset(g)
    decreases |order|
  {
    hide Flatten;
    var n := |order|;
    var init := order[..n - 1];
    var last := order[n - 1];
    var groups' := groups[h := g];
    FlattenLast(groups, order);
    FlattenLast(groups', order);
    if last == h {
      assert h !in init by {
        forall i | 0 <= i < n - 1 ensures init[i] != h { assert order[i] != order[n - 1]; }
      }
      FlattenIgnoresOtherKeys(groups, init, h, g);
    } else {
      assert Distinct(init);
      assert h in init by {
        var i :| 0 <= i < n && order[i] == h;
        assert i < n - 1 && init[i] == h;
      }
      FlattenReplace(groups, init, h, g);
      var before, after := multiset(Flatten(groups, init)), multiset(Flatten(groups', init));
      var mh, mg, ml := multiset(groups[h]), multiset(g), multiset(groups[last]);
      assert groups'[last] == groups[last];
      calc {
        multiset(Flatten(groups', order)) + mh;
        (after + ml) + mh;
        (after + mh) + ml;
        (before + mg) + ml;
        (before + ml) + mg;
        multiset(Flatten(groups, order)) + mg;
      }
    }
  }

  /** Groups that hold the same backends, each maybe in another order, flatten
      to the same backends. */
  lemma {:induction false} FlattenSameMembers(groups: map<string, seq<Addr>>, groups': map<string, seq<Addr>>, order: seq<string>)
    requires forall k :: k in order ==> k in groups && k in groups'
    requires forall k :: k in order ==> multiset(groups'[k]) == multiset(groups[k])
    ensures multiset(Flatten(groups', order)) == multiset(Flatten(groups, order))
    decreases |order|
  {
    if |order| > 0 {
      FlattenSameMembers(groups, groups', order[..|order| - 1]);
    }
  }

  /** A backend is in the flattening exactly when it is in the group of a
      listed key. */
  lemma {:induction false} FlattenMembers(groups: map<string, seq<Addr>>, order: seq<string>)
    requires forall k :: k in order ==> k in groups
    ensures forall a :: a in Flatten(groups, order) <==> exists k :: k in order && a in groups[k]
    decreases |order|
  {
    if |order| > 0 {
      var n := |order|;
      var init := order[..n - 1];
      FlattenMembers(groups, init);
      assert order == init + [order[n - 1]];
      forall a | a in Flatten(groups, order)
        ensures exists k :: k in order && a in groups[k]
      {
        if a !in groups[order[n - 1]] {
          var k :| k in init && a in groups[k];
          assert k in order;
        }
      }
    }
  }

  // Sequence facts, each proved on its own so that proofs using them do not
  // have to redo the extensionality argument in a large context.

  lemma PrefixOfPrefix<T>(s: seq<T>, i: nat, j: nat)
    requires i < j <= |s|
    ensures s[..j][..i] == s[..i] && s[..j][i] == s[i]
  {}

  lemma UpdateTwice<K, V>(m: map<K, V>, k: K, a: V, b: V)
    ensures m[k := a][k := b] == m[k := b]
  {}

  /** After `n - 1` rotations of `g`, the front is `g[n - 1]`, and one more
      rotation is `n` rotations. */
  lemma RotateStep<T>(g: seq<T>, n: nat)
    requires 0 < n <= |g|
    ensures var r := g[n - 1..] + g[..n - 1];
            && r[0] == g[n - 1]
            && r[1..] + [r[0]] == g[n..] + g[..n]
            && g[..n - 1] + [g[n - 1]] == g[..n]
  {
    var r := g[n - 1..] + g[..n - 1];
    assert r[1..] == g[n..] + g[..n - 1];
    assert g[..n] == g[..n - 1] + [g[n - 1]];
  }

  lemma PrefixSnoc<T>(s: seq<T>, i: nat)
    requires i < |s|
    ensures s[..i + 1][..i] == s[..i] && s[..i + 1][i] == s[i]
  {}

  lemma WholeRotation<T>(g: seq<T>)
    ensures g[0..] + g[..0] == g && g[|g|..] + g[..|g|] == g
  {}

  lemma UpdateSame<K, V>(m: map<K, V>, k: K)
    requires k in m
    ensures m[k := m[k]] == m
  {}

  lemma MultisetCancel(x: multiset<Addr>, y: multiset<Addr>, z: multiset<Addr>)
    requires x + z == y + z
    ensures x == y
  {
    assert forall a :: x[a] == (x + z)[a] - z[a];
    assert forall a :: y[a] == (y + z)[a] - z[a];
  }

  lemma MultisetSnoc(s: seq<Addr>)
    requires |s| > 0
    ensures multiset(s) == multiset(s[..|s| - 1]) + multiset{s[|s| - 1]}
  {
    assert s == s[..|s| - 1] + [s[|s| - 1]];
  }

  /** After a rebuild, the table holds exactly the backends it was built from,
      each once (as a multiset, since grouping reorders them). */
  lemma {:induction false} BuildKeepsBackends(backends: seq<Addr>)
    ensures multiset(Flatten(Build(backends).groups, Build(backends).order)) == multiset(backends)
    decreases |backends|
  {
    if |backends| > 0 {
      hide Build;
      hide Flatten;
      var n := |backends|;
      var b := backends[n - 1];
      var prev := Build(backends[..n - 1]);
      BuildKeepsBackends(backends[..n - 1]);
      BuildLast(backends);
      MultisetSnoc(backends);
      if b.host in prev.groups {
        FlattenGrow(prev.groups, prev.order, b.host, b);
      } else {
        FlattenNewKey(prev.groups, prev.order, b.host, [b]);
      }
    }
  }

  /** Appending a backend to a listed group adds it to the flattening. */
  lemma FlattenGrow(groups: map<string, seq<Addr>>, order: seq<string>, h: string, b: Addr)
    requires forall k :: k in order ==> k in groups
    requires Distinct(order) && h in order
    ensures multiset(Flatten(groups[h := groups[h] + [b]], order)) == multiset(Flatten(groups, order)) + multiset{b}
  {
    var grown := groups[h] + [b];
    var after := multiset(Flatten(groups[h := grown], order));
    var before := multiset(Flatten(groups, order));
    var mh := multiset(groups[h]);
    FlattenReplace(groups, order, h, grown);
    assert multiset(grown) == mh + multiset{b};
    calc {
      after + mh;
      before + (mh + multiset{b});
      (before + multiset{b}) + mh;
    }
    MultisetCancel(after, before + multiset{b}, mh);
  }

  /** A new key listed last adds its group at the end of the flattening. */
  lemma FlattenNewKey(groups: map<string, seq<Addr>>, order: seq<string>, h: string, g: seq<Addr>)
    requires forall k :: k in order ==> k in groups
    requires h !in order
    ensures Flatten(groups[h := g], order + [h]) == Flatten(groups, order) + g
  {
    var order' := order + [h];
    assert order'[..|order'| - 1] == order;
    FlattenLast(groups[h := g], order');
    FlattenIgnoresOtherKeys(groups, order, h, g);
  }
}
