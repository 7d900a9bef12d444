/** The simple scheduler object: the locality map, the round-robin entry for
    non-local assignments and the two locality counters, updated in place by
    the assignment calls and replaced wholesale by a membership update. Each
    method is proved against the functions of `HostTable` and `Assignment`. */
module SimpleScheduler {
  import opened HostTable
  import opened Assignment

  // `AssignAll` hides `PickOne` and `Assign` (`hide`): its loop relates each
  // step to them only through `AssignExtend` and `ServeOne`, which keeps the
  // loop's proof small.

  /** The one way an assignment can fail. */
  datatype Error = NoBackendsAvailable

  datatype Result<T> = Ok(value: T) | Err(error: Error)

  /** Serves one data location from a table held as its parts: a location
      whose host has an entry takes the front backend of that entry; any other
      takes the front backend of the entry under the cursor, and the cursor
      moves on, wrapping after the last entry. The group served from moves its
      front backend to the back. */
  method ServeOne(groups: map<string, seq<Addr>>, keys: seq<string>, cursor: nat, loc: Addr)
    returns (backend: Addr, local: bool, groups': map<string, seq<Addr>>, cursor': nat)
    requires WellFormed(Table(groups, keys, cursor)) && |keys| > 0
    ensures var p := PickOne(Table(groups, keys, cursor), loc);
            && backend == p.backend && local == p.local
            && Table(groups', keys, cursor') == p.next
  {
    PickOneChoice(Table(groups, keys, cursor), loc);
    var key: string;
    if loc.host in groups {
      key := loc.host;
      local := true;
      cursor' := cursor;
    } else {
      key := keys[cursor];
      local := false;
      cursor' := if cursor + 1 == |keys| then 0 else cursor + 1;
    }
    var g := groups[key];
    backend := g[0];
    if |g| > 1 {
      groups' := groups[key := g[1..] + [g[0]]];
    } else {
      RotateSingle(g);
      UpdateSame(groups, key);
      groups' := groups;
    }
  }

  /** Serves a batch of data locations, in input order, from a table held as
      its parts, and returns the chosen backends, how many were local, and the
      parts of the table afterwards. */
  method AssignAll(groups: map<string, seq<Addr>>, keys: seq<string>, cursor: nat, locs: seq<Addr>)
    returns (picks: seq<Addr>, numLocal: nat, groups': map<string, seq<Addr>>, cursor': nat)
    requires WellFormed(Table(groups, keys, cursor)) && (|locs| > 0 ==> |keys| > 0)
    ensures var b := Assign(Table(groups, keys, cursor), locs);
            && picks == b.backends && numLocal == b.localCount
            && Table(groups', keys, cursor') == b.next
  {
    hide PickOne;
    hide Assign;
    ghost var t0 := Table(groups, keys, cursor);
    AssignNone(t0, locs[..0]);
    groups', cursor' := groups, cursor;
    picks, numLocal := [], 0;
    var i := 0;
    while i < |locs|
      invariant 0 <= i <= |locs|
      invariant var done := Assign(t0, locs[..i]);
                && done.backends == picks && done.localCount == numLocal
                && done.next == Table(groups', keys, cursor')
    {
      AssignExtend(t0, locs, i);
      var backend, local;
      backend, local, groups', cursor' := ServeOne(groups', keys, cursor', locs[i]);
      picks := picks + [backend];
      if local {
        numLocal := numLocal + 1;
      }
      i := i + 1;
    }
    assert locs[..|locs|] == locs;
  }

  class Scheduler {
    /** Host (IP) to the backends local to it; front = next to hand out. */
    var hostMap: map<string, seq<Addr>>
    /** The keys of `hostMap` in iteration order. */
    var keys: seq<string>
    /** Index into `keys` of the entry that serves the next non-local location. */
    var nextNonlocal: nat
    /** Locality counters: locations served, and those served locally. */
    var totalAssignments: nat
    var totalLocalAssignments: nat

    /** The table the fields hold. */
    ghost function State(): Table
      reads this
    {
      Table(hostMap, keys, nextNonlocal)
    }

    ghost predicate Valid()
      reads this
    {
      WellFormed(State()) && totalLocalAssignments <= totalAssignments
    }

    /** Dynamic mode: no backend is known until the first membership update. */
    constructor Dynamic()
      ensures Valid() && State() == Build([])
      ensures totalAssignments == 0 && totalLocalAssignments == 0
    {
      hostMap := map[];
      keys := [];
      nextNonlocal := 0;
      totalAssignments := 0;
      totalLocalAssignments := 0;
    }

    /** Static mode: the table is built once from a fixed list of backends. */
    constructor Static(backends: seq<Addr>)
      ensures Valid() && State() == Build(backends)
      ensures totalAssignments == 0 && totalLocalAssignments == 0
    {
      hostMap := map[];
      keys := [];
      nextNonlocal := 0;
      totalAssignments := 0;
      totalLocalAssignments := 0;
      new;
      UpdateMembership(backends);
    }

    /** Rebuilds the table from the current backends: each backend joins the
        group of its host, and the round robin restarts at the first entry.
        The counters are left alone. */
    method UpdateMembership(backends: seq<Addr>)
      requires Valid()
      modifies this
      ensures Valid() && State() == Build(backends)
      ensures totalAssignments == old(totalAssignments)
      ensures totalLocalAssignments == old(totalLocalAssignments)
    {
      var groups: map<string, seq<Addr>> := map[];
      var order: seq<string> := [];
      var i := 0;
      while i < |backends|
        invariant 0 <= i <= |backends|
        invariant Build(backends[..i]) == Table(groups, order, 0)
        invariant unchanged(this)
      {
        var b := backends[i];
        PrefixSnoc(backends, i);
        if b.host in groups {
          groups := groups[b.host := groups[b.host] + [b]];
        } else {
          groups := groups[b.host := [b]];
          order := order + [b.host];
        }
        i := i + 1;
      }
      assert backends[..|backends|] == backends;
      hostMap := groups;
      keys := order;
      nextNonlocal := 0;
    }

    /** Assigns one backend to each data location, in input order: a location
        whose host has an entry gets the front backend of that entry; any other
        location gets the front backend of the round-robin entry, which then
        moves on. The chosen backend goes to the back of its group. Fails,
        changing nothing, when locations are given and no backend is known. */
    method GetHosts(locs: seq<Addr>) returns (r: Result<seq<Addr>>)
      requires Valid()
      modifies this
      ensures Valid()
      ensures old(keys) == [] && |locs| > 0 ==> r == Err(NoBackendsAvailable) && unchanged(this)
      ensures old(keys) != [] || |locs| == 0 ==>
                var b := Assign(old(State()), locs);
                && r == Ok(b.backends)
                && State() == b.next
                && totalAssignments == old(totalAssignments) + |locs|
                && totalLocalAssignments == old(totalLocalAssignments) + b.localCount
    {
      if |keys| == 0 && |locs| > 0 {
        return Err(NoBackendsAvailable);
      }
      ghost var b := Assign(State(), locs);
      var picks, numLocal, groups, cursor := AssignAll(hostMap, keys, nextNonlocal, locs);
      hostMap := groups;
      nextNonlocal := cursor;
      assert State() == b.next;
      totalAssignments := totalAssignments + |locs|;
      totalLocalAssignments := totalLocalAssignments + numLocal;
      r := Ok(picks);
    }

    /** Assigns a backend to one data location, as a batch of one. */
    method GetHost(loc: Addr) returns (r: Result<Addr>)
      requires Valid()
      modifies this
      ensures Valid()
      ensures old(keys) == [] ==> r == Err(NoBackendsAvailable) && unchanged(this)
      ensures old(keys) != [] ==>
                var p := PickOne(old(State()), loc);
                && r == Ok(p.backend)
                && State() == p.next
                && totalAssignments == old(totalAssignments) + 1
                && totalLocalAssignments == old(totalLocalAssignments) + (if p.local then 1 else 0)
    {
      if |keys| > 0 {
        SingleIsPick(State(), loc);
      }
      var hosts := GetHosts([loc]);
      match hosts {
        case Err(e) => r := Err(e);
        case Ok(hs) => r := Ok(hs[0]);
      }
    }

    /** Whether the location's host string is a key of the table, looked up as
        given. On a non-empty table this is exactly whether an assignment of
        the location would be local. */
    function HasLocalHost(loc: Addr): (b: bool)
      reads this
      ensures Valid() ==> (b <==> loc.host in keys)
      ensures Valid() && keys != [] ==> (b <==> PickOne(State(), loc).local)
    {
      loc.host in hostMap
    }

    /** Every backend the table holds: the groups concatenated in key order. */
    method GetAllKnownHosts() returns (hosts: seq<Addr>)
      requires Valid()
      ensures hosts == Flatten(hostMap, keys)
      ensures forall a :: a in hosts <==> exists k :: k in hostMap && a in hostMap[k]
    {
      hosts := [];
      var i := 0;
      while i < |keys|
        invariant 0 <= i <= |keys|
        invariant hosts == Flatten(hostMap, keys[..i])
      {
        PrefixSnoc(keys, i);
        hosts := hosts + hostMap[keys[i]];
        i := i + 1;
      }
      assert keys[..|keys|] == keys;
      FlattenMembers(hostMap, keys);
    }
  }
}
