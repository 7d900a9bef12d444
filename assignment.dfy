/** The assignment rule of the simple scheduler as functions on the table:
    which backend serves one data location, and what a whole batch of
    locations yields, with the properties the scheduler promises about it. */
module Assignment {
  import opened HostTable

  // Proof style: the inductive lemmas below hide `PickOne`, `Assign` and
  // `FallbackOutcome` with `hide` and unfold them one step at a time through
  // `AssignNone`, `AssignLast`, `AssignExtend` and `PickOneChoice`; the
  // index arithmetic of the wrapping cursor (`AheadBehind`, `BehindAhead`,
  // `NextAhead`) is stated as lemmas of its own. This keeps each proof's
  // context small enough for the solver to finish quickly.

  /** The outcome of serving one data location: the chosen backend, whether it
      was co-located with the data, and the table afterwards. */
  datatype Pick = Pick(backend: Addr, local: bool, next: Table)

  /** The outcome of serving a batch: one backend per location, the number of
      local matches, and the table afterwards. */
  datatype Batch = Batch(backends: seq<Addr>, localCount: nat, next: Table)

  /** The cursor after one step: the next entry, wrapping to the first after
      the last. */
  function Next(cursor: nat, size: nat): (r: nat)
    requires cursor < size
    ensures r == (cursor + 1) % size
  {
    if cursor + 1 == size then 0 else cursor + 1
  }

  /** The entry index `j` steps ahead of `cursor`, wrapping at most once. */
  function Ahead(cursor: nat, j: nat, size: nat): nat {
    if cursor + j < size then cursor + j else cursor + j - size
  }

  /** How many steps ahead of `cursor` the entry `i` lies. */
  function Behind(i: nat, cursor: nat, size: nat): nat
    requires cursor < size
  {
    if i >= cursor then i - cursor else i + size - cursor
  }

  /** Serves one data location. The location's host string is looked up as
      it is, without resolution. With an entry, the front backend of that
      entry is chosen; without one, the front backend of the entry under the
      cursor, and the cursor moves on. Either way the chosen backend goes to
      the back of its group. */
  function PickOne(t: Table, loc: Addr): (p: Pick)
    requires WellFormed(t) && |t.order| > 0
    ensures WellFormed(p.next) && p.next.order == t.order
  {
    var local := loc.host in t.groups;
    var key := if local then loc.host else t.order[t.cursor];
    var g := t.groups[key];
    Pick(g[0], local, Table(t.groups[key := Rotate(g)], t.order,
                            if local then t.cursor else Next(t.cursor, |t.order|)))
  }

  /** What one pick does: a location is served locally exactly when its
      host string is a key of the table; a local pick takes the front backend
      of that host's group and leaves the cursor alone, a non-local one takes
      the front backend of the entry under the cursor and advances it. The
      group picked from is rotated, and no group gains or loses a backend. */
  lemma PickOneChoice(t: Table, loc: Addr)
    requires WellFormed(t) && |t.order| > 0
    ensures var p := PickOne(t, loc);
            && (p.local <==> loc.host in t.groups)
            && (p.local ==> p.backend == t.groups[loc.host][0] && p.next.cursor == t.cursor)
            && (!p.local ==> p.backend == t.groups[t.order[t.cursor]][0]
                             && p.next.cursor == Next(t.cursor, |t.order|))
            && p.next.groups == t.groups[(if p.local then loc.host else t.order[t.cursor])
                                         := Rotate(t.groups[if p.local then loc.host else t.order[t.cursor]])]
            && (forall k :: k in t.groups ==> multiset(p.next.groups[k]) == multiset(t.groups[k]))
  {
    RotateMoves(t.groups[if loc.host in t.groups then loc.host else t.order[t.cursor]]);
  }

  /** Serves a batch of data locations one after the other, in input order:
      the locations before the last are served first, then the last one from
      the table they leave. */
  function Assign(t: Table, locs: seq<Addr>): (b: Batch)
    requires WellFormed(t) && (|locs| > 0 ==> |t.order| > 0)
    ensures WellFormed(b.next) && b.next.order == t.order
    ensures |b.backends| == |locs| && b.localCount <= |locs|
    decreases |locs|
  {
    if |locs| == 0 then Batch([], 0, t)
    else
      var prev := Assign(t, locs[..|locs| - 1]);
      var p := PickOne(prev.next, locs[|locs| - 1]);
      Batch(prev.backends + [p.backend], prev.localCount + (if p.local then 1 else 0), p.next)
  }

  /** The number of locations whose host has an entry among `keys`. */
  function CountLocal(keys: set<string>, locs: seq<Addr>): nat
    decreases |locs|
  {
    if |locs| == 0 then 0
    else CountLocal(keys, locs[..|locs| - 1]) + (if locs[|locs| - 1].host in keys then 1 else 0)
  }

  /** One more location served: serving the first `i + 1` locations extends
      the result of serving the first `i` by the pick for `locs[i]` in the
      table they leave. */
  lemma AssignExtend(t: Table, locs: seq<Addr>, i: nat)
    requires WellFormed(t) && |t.order| > 0 && i < |locs|
    ensures var prev := Assign(t, locs[..i]); var p := PickOne(prev.next, locs[i]); var b := Assign(t, locs[..i + 1]);
            && b.backends == prev.backends + [p.backend]
            && b.localCount == prev.localCount + (if p.local then 1 else 0)
            && b.next == p.next
  {
    hide PickOne;
    PrefixSnoc(locs, i);
  }

  /** The last location of a batch is served from the table the others
      leave. */
  lemma AssignLast(t: Table, locs: seq<Addr>)
    requires WellFormed(t) && |t.order| > 0 && |locs| > 0
    ensures var prev := Assign(t, locs[..|locs| - 1]); var p := PickOne(prev.next, locs[|locs| - 1]);
            var b := Assign(t, locs);
            && b.backends == prev.backends + [p.backend]
            && b.localCount == prev.localCount + (if p.local then 1 else 0)
            && b.next == p.next
  {
    hide PickOne;
  }

  /** Serving no location yields nothing and leaves the table as it was. */
  lemma AssignNone(t: Table, locs: seq<Addr>)
    requires WellFormed(t) && |locs| == 0
    ensures var b := Assign(t, locs); b.backends == [] && b.localCount == 0 && b.next == t
  {}

  /** Positional alignment: the backend at position `i` is the one picked for
      `locs[i]` in the state left by the locations before it. */
  lemma {:induction false} AssignAt(t: Table, locs: seq<Addr>, i: nat)
    requires WellFormed(t) && |t.order| > 0 && i < |locs|
    ensures Assign(t, locs).backends[i] == PickOne(Assign(t, locs[..i]).next, locs[i]).backend
    decreases |locs|
  {
    hide PickOne;
    hide Assign;
    var n := |locs|;
    AssignExtend(t, locs, n - 1);
    assert locs[..n] == locs;
    if i < n - 1 {
      AssignAt(t, locs[..n - 1], i);
      PrefixOfPrefix(locs, i, n - 1);
    }
  }

  /** Rotation never changes which backends a group holds, nor their cyclic
      order: after any batch each group is its original turned round. */
  lemma {:induction false} AssignKeepsMembers(t: Table, locs: seq<Addr>)
    requires WellFormed(t) && |t.order| > 0
    ensures forall k :: k in t.groups ==> multiset(Assign(t, locs).next.groups[k]) == multiset(t.groups[k])
    ensures forall k :: k in t.groups ==> IsRotation(Assign(t, locs).next.groups[k], t.groups[k])
    decreases |locs|
  {
    hide PickOne;
    hide Assign;
    var n := |locs|;
    if n == 0 {
      AssignNone(t, locs);
      forall k | k in t.groups
        ensures IsRotation(t.groups[k], t.groups[k])
      {
        assert t.groups[k] == t.groups[k][0..] + t.groups[k][..0];
      }
    } else {
      var prev := Assign(t, locs[..n - 1]);
      AssignLast(t, locs);
      AssignKeepsMembers(t, locs[..n - 1]);
      SameKeys(t, prev.next);
      PickOneChoice(prev.next, locs[n - 1]);
      var key := if locs[n - 1].host in prev.next.groups then locs[n - 1].host else prev.next.order[prev.next.cursor];
      RotateKeepsCycle(t.groups[key], prev.next.groups[key]);
    }
  }

  /** Rotation never changes the set of known backends. */
  lemma AssignKeepsKnownHosts(t: Table, locs: seq<Addr>)
    requires WellFormed(t) && |t.order| > 0
    ensures multiset(Flatten(Assign(t, locs).next.groups, t.order)) == multiset(Flatten(t.groups, t.order))
  {
    hide PickOne;
    AssignKeepsMembers(t, locs);
    FlattenSameMembers(t.groups, Assign(t, locs).next.groups, t.order);
  }

  /** Locality: a location whose host has an entry is served by a backend of
      that entry. */
  lemma LocalAssignmentIsLocal(t: Table, locs: seq<Addr>, i: nat)
    requires WellFormed(t) && |t.order| > 0 && i < |locs|
    requires locs[i].host in t.groups
    ensures Assign(t, locs).backends[i] in t.groups[locs[i].host]
  {
    hide PickOne;
    var h := locs[i].host;
    var s := Assign(t, locs[..i]).next;
    AssignAt(t, locs, i);
    AssignKeepsMembers(t, locs[..i]);
    SameKeys(t, s);
    PickOneChoice(s, locs[i]);
    assert s.groups[h][0] in multiset(s.groups[h]);
  }

  /** Every assigned backend is one the table knows. */
  lemma AssignedIsKnown(t: Table, locs: seq<Addr>, i: nat)
    requires WellFormed(t) && |t.order| > 0 && i < |locs|
    ensures Assign(t, locs).backends[i] in Flatten(t.groups, t.order)
  {
    hide PickOne;
    var s := Assign(t, locs[..i]).next;
    var p := PickOne(s, locs[i]);
    var k := if p.local then locs[i].host else s.order[s.cursor];
    AssignAt(t, locs, i);
    AssignKeepsMembers(t, locs[..i]);
    SameKeys(t, s);
    PickOneChoice(s, locs[i]);
    assert s.groups[k][0] in multiset(s.groups[k]);
    FlattenMembers(t.groups, t.order);
  }

  /** Counter accounting: the local count of a batch is the number of its
      locations whose host has an entry. */
  lemma {:induction false} LocalCountMatches(t: Table, locs: seq<Addr>)
    requires WellFormed(t) && |t.order| > 0
    ensures Assign(t, locs).localCount == CountLocal(t.groups.Keys, locs)
    decreases |locs|
  {
    hide PickOne;
    hide Assign;
    var n := |locs|;
    if n == 0 {
      AssignNone(t, locs);
    } else {
      var prev := Assign(t, locs[..n - 1]);
      AssignLast(t, locs);
      LocalCountMatches(t, locs[..n - 1]);
      SameKeys(t, prev.next);
      PickOneChoice(prev.next, locs[n - 1]);
    }
  }

  /** One location is served as a batch of one. */
  lemma SingleIsPick(t: Table, loc: Addr)
    requires WellFormed(t) && |t.order| > 0
    ensures var p := PickOne(t, loc); var b := Assign(t, [loc]);
            && b.backends == [p.backend]
            && b.localCount == (if p.local then 1 else 0)
            && b.next == p.next
  {
    hide PickOne;
    assert [loc][..0] == [];
  }

  /** `n` copies of one location. */
  function Repeat(loc: Addr, n: nat): (r: seq<Addr>)
    ensures |r| == n && forall i :: 0 <= i < n ==> r[i] == loc
  {
    seq(n, _ => loc)
  }

  lemma RepeatInit(loc: Addr, n: nat)
    requires n > 0
    ensures Repeat(loc, n)[..n - 1] == Repeat(loc, n - 1)
  {}

  /** Round robin within a locality group: `n` successive requests for a host
      whose group is `g` (with `n` at most its size) get the first `n` backends
      of `g` in order, leave `g` rotated by `n`, and touch neither the cursor
      nor any other group. */
  lemma {:induction false} LocalRoundRobin(t: Table, loc: Addr, n: nat)
    requires WellFormed(t) && loc.host in t.groups && n <= |t.groups[loc.host]|
    ensures var g := t.groups[loc.host]; var b := Assign(t, Repeat(loc, n));
            && b.backends == g[..n]
            && b.next.groups == t.groups[loc.host := g[n..] + g[..n]]
            && b.next.cursor == t.cursor
            && b.localCount == n
    decreases n
  {
    hide PickOne;
    hide Assign;
    var h := loc.host;
    var g := t.groups[h];
    if n == 0 {
      AssignNone(t, Repeat(loc, n));
      WholeRotation(g);
      UpdateSame(t.groups, h);
    } else {
      var prev := Assign(t, Repeat(loc, n - 1));
      LocalRoundRobin(t, loc, n - 1);
      RepeatInit(loc, n);
      AssignLast(t, Repeat(loc, n));
      SameKeys(t, prev.next);
      PickOneChoice(prev.next, loc);
      var p := PickOne(prev.next, loc);
      LocalStep(t.groups, h, n, prev.backends, p.backend, prev.next.groups, p.next.groups);
    }
  }

  /** The step of `LocalRoundRobin` on plain values: after `n - 1` requests
      the group is rotated by `n - 1`, and the `n`-th takes its front. */
  lemma LocalStep(groups: map<string, seq<Addr>>, h: string, n: nat, before: seq<Addr>, front: Addr,
                  s: map<string, seq<Addr>>, u: map<string, seq<Addr>>)
    requires h in groups && 0 < n <= |groups[h]|
    requires before == groups[h][..n - 1]
    requires s == groups[h := groups[h][n - 1..] + groups[h][..n - 1]]
    requires front == s[h][0]
    requires u == s[h := Rotate(s[h])]
    ensures before + [front] == groups[h][..n]
    ensures u == groups[h := groups[h][n..] + groups[h][..n]]
  {
    var g := groups[h];
    var r := g[n - 1..] + g[..n - 1];
    RotateStep(g, n);
    UpdateTwice(groups, h, r, Rotate(r));
  }

  /** A full round: as many requests for a host as it has backends get each of
      them exactly once, in group order, and leave the table as it was. */
  lemma LocalFullRound(t: Table, loc: Addr)
    requires WellFormed(t) && loc.host in t.groups
    ensures var g := t.groups[loc.host]; var b := Assign(t, Repeat(loc, |g|));
            b.backends == g && b.next == t
  {
    hide PickOne;
    var g := t.groups[loc.host];
    LocalRoundRobin(t, loc, |g|);
    WholeRotation(g);
    UpdateSame(t.groups, loc.host);
  }

  /** What serving `n` locations without an entry from `t` yields: the front
      backends of the `n` entries starting at the cursor, in key order; each
      of those entries rotated once and every other one untouched; the cursor
      `n` entries further on; no local match. */
  ghost predicate FallbackOutcome(t: Table, n: nat, b: Batch)
    requires WellFormed(t) && WellFormed(b.next) && b.next.order == t.order && 0 < |t.order| && n <= |t.order|
  {
    var m := |t.order|;
    && |b.backends| == n
    && b.localCount == 0
    && b.next.cursor == Ahead(t.cursor, n, m)
    && (forall j :: 0 <= j < n ==> b.backends[j] == t.groups[t.order[Ahead(t.cursor, j, m)]][0])
    && (forall i :: 0 <= i < m ==>
          b.next.groups[t.order[i]] ==
            if Behind(i, t.cursor, m) < n then Rotate(t.groups[t.order[i]]) else t.groups[t.order[i]])
  }

  /** Round robin over the entries: `n` successive locations with no entry of
      their own, with `n` at most the number of entries, are served as
      `FallbackOutcome` describes. */
  lemma {:induction false} FallbackRoundRobin(t: Table, locs: seq<Addr>)
    requires WellFormed(t) && 0 < |t.order| && |locs| <= |t.order|
    requires forall i :: 0 <= i < |locs| ==> locs[i].host !in t.groups
    ensures FallbackOutcome(t, |locs|, Assign(t, locs))
    decreases |locs|
  {
    hide PickOne;
    hide Assign;
    var n := |locs|;
    if n == 0 {
      AssignNone(t, locs);
    } else {
      hide FallbackOutcome;
      var prev := Assign(t, locs[..n - 1]);
      AssignLast(t, locs);
      FallbackRoundRobin(t, locs[..n - 1]);
      FallbackStep(t, prev, locs[n - 1], n);
    }
  }

  /** The inductive step of `FallbackRoundRobin`, on plain values. */
  lemma FallbackStep(t: Table, prev: Batch, loc: Addr, n: nat)
    requires WellFormed(t) && 0 < n <= |t.order| && loc.host !in t.groups
    requires WellFormed(prev.next) && prev.next.order == t.order
    requires FallbackOutcome(t, n - 1, prev)
    ensures var pick := PickOne(prev.next, loc);
            FallbackOutcome(t, n, Batch(prev.backends + [pick.backend],
                                        prev.localCount + (if pick.local then 1 else 0), pick.next))
  {
    hide PickOne;
    var pick := PickOne(prev.next, loc);
    SameKeys(t, prev.next);
    PickOneChoice(prev.next, loc);
    var m := |t.order|;
    var c := t.cursor;
    var q := Ahead(c, n - 1, m);
    AheadBehind(c, n - 1, m);
    NextAhead(c, n, m);
    assert pick.backend == t.groups[t.order[q]][0];
    FallbackStepBackends(t, prev.backends, pick.backend, n);
    FallbackStepGroups(t, prev.next, pick.next, n);
  }

  lemma FallbackStepBackends(t: Table, prev: seq<Addr>, front: Addr, n: nat)
    requires WellFormed(t) && 0 < n <= |t.order| && |prev| == n - 1
    requires front == t.groups[t.order[Ahead(t.cursor, n - 1, |t.order|)]][0]
    requires forall j :: 0 <= j < n - 1 ==> prev[j] == t.groups[t.order[Ahead(t.cursor, j, |t.order|)]][0]
    ensures forall j :: 0 <= j < n ==> (prev + [front])[j] == t.groups[t.order[Ahead(t.cursor, j, |t.order|)]][0]
  {
    forall j | 0 <= j < n ensures (prev + [front])[j] == t.groups[t.order[Ahead(t.cursor, j, |t.order|)]][0] {
      AheadBehind(t.cursor, j, |t.order|);
      if j < n - 1 {
        assert (prev + [front])[j] == prev[j];
      }
    }
  }

  lemma FallbackStepGroups(t: Table, s: Table, u: Table, n: nat)
    requires WellFormed(t) && 0 < n <= |t.order|
    requires WellFormed(s) && s.order == t.order && s.cursor == Ahead(t.cursor, n - 1, |t.order|)
    requires WellFormed(u) && u.order == t.order
    requires u.groups == s.groups[s.order[s.cursor] := Rotate(s.groups[s.order[s.cursor]])]
    requires var m := |t.order|;
             forall i :: 0 <= i < m ==>
               s.groups[t.order[i]] ==
                 if Behind(i, t.cursor, m) < n - 1 then Rotate(t.groups[t.order[i]]) else t.groups[t.order[i]]
    ensures var m := |t.order|;
            forall i :: 0 <= i < m ==>
              u.groups[t.order[i]] == if Behind(i, t.cursor, m) < n then Rotate(t.groups[t.order[i]]) else t.groups[t.order[i]]
  {
    var m := |t.order|;
    var c := t.cursor;
    var q := s.cursor;
    AheadBehind(c, n - 1, m);
    forall i | 0 <= i < m
      ensures u.groups[t.order[i]] == if Behind(i, c, m) < n then Rotate(t.groups[t.order[i]]) else t.groups[t.order[i]]
    {
      BehindAhead(i, c, m);
      if i != q {
        assert t.order[i] != t.order[q];
        assert Behind(i, c, m) != n - 1;
      }
    }
  }

  /** `Behind` undoes `Ahead`: the entry `j` steps ahead lies `j` steps ahead. */
  lemma AheadBehind(c: nat, j: nat, m: nat)
    requires c < m && j < m
    ensures Ahead(c, j, m) < m && Behind(Ahead(c, j, m), c, m) == j
  {}

  /** `Ahead` undoes `Behind`. */
  lemma BehindAhead(i: nat, c: nat, m: nat)
    requires i < m && c < m
    ensures Behind(i, c, m) < m && Ahead(c, Behind(i, c, m), m) == i
  {}

  /** One step after `n - 1` steps is `n` steps. */
  lemma NextAhead(c: nat, n: nat, m: nat)
    requires c < m && 0 < n <= m
    ensures Next(Ahead(c, n - 1, m), m) == Ahead(c, n, m)
  {}

  /** A rebuild restarts the round robin: right after building the table from
      `backends`, `n` locations with no entry (`n` at most the number of hosts)
      are served by the first backend of each of the first `n` hosts in key
      order, so by `n` backends on `n` distinct hosts. */
  lemma RebuildRestartsRoundRobin(backends: seq<Addr>, locs: seq<Addr>)
    requires |locs| <= |Build(backends).order|
    requires forall i :: 0 <= i < |locs| ==> locs[i].host !in Build(backends).groups
    ensures var t := Build(backends); var b := Assign(t, locs);
            && (forall j :: 0 <= j < |locs| ==> b.backends[j] == t.groups[t.order[j]][0])
            && (forall j :: 0 <= j < |locs| ==> b.backends[j].host == t.order[j])
  {
    hide PickOne;
    var t := Build(backends);
    if |locs| > 0 {
      FallbackRoundRobin(t, locs);
      forall j | 0 <= j < |locs| ensures Assign(t, locs).backends[j].host == t.order[j] {
        var k := t.order[j];
        BuildGroups(backends, k);
        assert t.groups[k][0] in OnHost(backends, k);
      }
    }
  }
}
