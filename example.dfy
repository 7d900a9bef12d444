/** A worked scenario: three backends on two hosts, and a batch of two data
    locations on the first host followed by one on a host with no backend. */
module Example {
  import opened HostTable
  import opened Assignment

  // Each step hides the definitions it does not need (`hide`) and works from
  // the previous step's lemma, so that no proof has to evaluate the whole
  // scenario at once.

  const A := Addr("10.0.0.1", 22000)
  const B := Addr("10.0.0.1", 22001)
  const C := Addr("10.0.0.2", 22000)

  /** The table groups A and B under 10.0.0.1 and C under 10.0.0.2, with the
      hosts in the order their first backend appears. */
  lemma ExampleTable()
    ensures Build([A, B, C]).groups == map["10.0.0.1" := [A, B], "10.0.0.2" := [C]]
    ensures Build([A, B, C]).order == ["10.0.0.1", "10.0.0.2"]
  {
    var h1, h2 := "10.0.0.1", "10.0.0.2";
    assert h1[7] != h2[7];
    assert [A, B, C][..2] == [A, B] && [A, B][..1] == [A] && [A][..0] == [];
    BuildLast([A]);
    assert Build([A]).groups == map[h1 := [A]];
    BuildLast([A, B]);
    assert [A] + [B] == [A, B];
    assert Build([A, B]).groups == map[h1 := [A, B]];
    BuildLast([A, B, C]);
  }

  /** Two data locations: one on 10.0.0.1 and one on a host with no backend. */
  const L1 := Addr("10.0.0.1", 50010)
  const L3 := Addr("10.0.0.3", 50010)

  /** The first request for 10.0.0.1 takes A and puts it behind B. */
  lemma ExampleFirst()
    ensures var b := Assign(Build([A, B, C]), [L1]);
            && b.backends == [A] && b.localCount == 1
            && b.next.groups["10.0.0.1"] == [B, A] && b.next.cursor == 0
  {
    hide PickOne;
    hide Assign;
    var t := Build([A, B, C]);
    ExampleTable();
    assert t.groups["10.0.0.1"] == [A, B];
    assert Rotate([A, B]) == [B, A];
    assert [L1][..0] == [];
    AssignNone(t, [L1][..0]);
    AssignLast(t, [L1]);
    PickOneChoice(t, L1);
  }

  /** The second request for 10.0.0.1 takes B and restores the group. */
  lemma ExampleSecond()
    ensures var b := Assign(Build([A, B, C]), [L1, L1]);
            && b.backends == [A, B] && b.localCount == 2
            && b.next.groups["10.0.0.1"] == [A, B] && b.next.cursor == 0
  {
    hide PickOne;
    hide Assign;
    var t := Build([A, B, C]);
    var s1 := Assign(t, [L1]).next;
    ExampleFirst();
    assert Rotate([B, A]) == [A, B];
    assert [L1, L1][..1] == [L1];
    AssignLast(t, [L1, L1]);
    PickOneChoice(s1, L1);
  }

  /** Whatever batch is served, the table keeps the keys of the original one,
      in the same order, and has none for 10.0.0.3. */
  lemma ExampleKeys(locs: seq<Addr>)
    ensures var s := Assign(Build([A, B, C]), locs).next;
            && WellFormed(s) && s.order == ["10.0.0.1", "10.0.0.2"] && L3.host !in s.groups
  {
    var t := Build([A, B, C]);
    ExampleTable();
    assert "10.0.0.1"[7] != L3.host[7] && "10.0.0.2"[7] != L3.host[7];
    SameKeys(t, Assign(t, locs).next);
  }

  /** The request for the unknown 10.0.0.3 falls back to the entry under the
      cursor, 10.0.0.1, whose front is A again, and the cursor moves on. */
  lemma ExampleScenario()
    ensures var b := Assign(Build([A, B, C]), [L1, L1, L3]);
            b.backends == [A, B, A] && b.localCount == 2 && b.next.cursor == 1
  {
    hide PickOne;
    hide Assign;
    hide Build;
    hide WellFormed;
    var t := Build([A, B, C]);
    ExampleTable();
    var s2 := Assign(t, [L1, L1]).next;
    ExampleSecond();
    ExampleKeys([L1, L1]);
    assert [L1, L1, L3][..2] == [L1, L1];
    AssignLast(t, [L1, L1, L3]);
    PickOneChoice(s2, L3);
    assert [A, B] + [A] == [A, B, A];
  }

  /** When the unknown host comes between the two requests for 10.0.0.1, the
      fallback takes B from the front of 10.0.0.1's group, so both local
      requests are served by A. */
  lemma ExampleInterleavedFallback()
    ensures var b := Assign(Build([A, B, C]), [L1, L3]);
            && b.backends == [A, B] && b.localCount == 1
            && "10.0.0.1" in b.next.groups && b.next.groups["10.0.0.1"] == [A, B] && b.next.cursor == 1
  {
    hide PickOne;
    hide Assign;
    hide Build;
    hide WellFormed;
    var t := Build([A, B, C]);
    ExampleTable();
    var s1 := Assign(t, [L1]).next;
    ExampleFirst();
    ExampleKeys([L1]);
    assert Rotate([B, A]) == [A, B];
    assert [L1, L3][..1] == [L1];
    AssignLast(t, [L1, L3]);
    PickOneChoice(s1, L3);
  }

  /** The batch [10.0.0.1, 10.0.0.3, 10.0.0.1] is served as [A, B, A]. */
  lemma ExampleInterleaved()
    ensures var b := Assign(Build([A, B, C]), [L1, L3, L1]);
            b.backends == [A, B, A] && b.localCount == 2 && b.next.cursor == 1
  {
    hide PickOne;
    hide Assign;
    hide Build;
    hide WellFormed;
    var t := Build([A, B, C]);
    ExampleTable();
    var s2 := Assign(t, [L1, L3]).next;
    ExampleInterleavedFallback();
    ExampleKeys([L1, L3]);
    assert [L1, L3, L1][..2] == [L1, L3];
    AssignLast(t, [L1, L3, L1]);
    PickOneChoice(s2, L1);
    assert [A, B] + [A] == [A, B, A];
  }
}
