/** A run in which a blocked client is passed over. */
module BlpopRuns {
  import opened BlpopSpec

  const EMPTY := St(map[], [], map[], map[], [])

  /** BLPOP b blocks, x is pushed to a, and a is renamed to b: the client still waits for b, and x
      is in the list there. */
  lemma RenameRun(c: Cid, a: Str, b: Str, x: Str)
    requires a != b
    ensures var steps := [DoBlockingPop(c, [b], 0, true), DoPush(a, x, true), DoRename(a, b, false)];
      Inv(EMPTY, {}) && CanRun(EMPTY, steps) && var e := Run(EMPTY, steps);
      && e.lists == map[b := List([x])] && e.keysOf == map[c := [b]] && e.replies == []
      && !Inv(e, {}) && AllMissed(EMPTY, steps) == {b}
  {
    hide Run, CanRun, AllMissed, Inv;
    var e1, e2, e3 := DoBlockingPop(c, [b], 0, true), DoPush(a, x, true), DoRename(a, b, false);
    var s1 := St(map[], [c], map[c := [b]], map[c := 0], []);
    var s2, s3 := s1.(lists := map[a := List([x])]), s1.(lists := map[b := List([x])]);
    Blocks(c, b);
    Pushes(s1, c, a, b, x);
    Renames(s2, s3, c, a, b, x);
    RunNone(s3);
    RunOne(s2, e3, []);
    RunOne(s1, e2, [e3] + []);
    RunOne(EMPTY, e1, [e2] + ([e3] + []));
    assert [e1] + ([e2] + ([e3] + [])) == [e1, e2, e3];
    NobodyYet();
    assert {} + ({} + ({b} + {})) == {b};
  }

  lemma RunOne(s: St, e: Step, rest: seq<Step>)
    requires Enabled(s, e) && CanRun(Next(s, e), rest)
    ensures CanRun(s, [e] + rest) && Run(s, [e] + rest) == Run(Next(s, e), rest)
    ensures AllMissed(s, [e] + rest) == Missed(s, e) + AllMissed(Next(s, e), rest)
  {
    hide Enabled, Next, Missed;
    assert ([e] + rest)[1..] == rest;
  }

  lemma RunNone(s: St)
    ensures CanRun(s, []) && Run(s, []) == s && AllMissed(s, []) == {}
  {
  }

  lemma NobodyYet()
    ensures Inv(EMPTY, {})
  {
  }

  lemma Renames(s: St, r: St, c: Cid, a: Str, b: Str, x: Str)
    requires a != b && s.lists == map[a := List([x])] && s.keysOf == map[c := [b]]
    requires r == s.(lists := map[b := List([x])])
    ensures Next(s, DoRename(a, b, false)) == r && Missed(s, DoRename(a, b, false)) == {b} && !Inv(r, {})
  {
    assert (s.lists - {a})[b := List([x])] == map[b := List([x])];
    assert HasItems(r.lists, b) && b in r.keysOf[c];
    assert !NoneServed(r.lists, r.keysOf[c], {});
  }

  lemma Blocks(c: Cid, b: Str)
    ensures Next(EMPTY, DoBlockingPop(c, [b], 0, true)) == St(map[], [c], map[c := [b]], map[c := 0], [])
  {
    var keys := [b];
    assert keys[1..] == [] && FirstServed(map[], []) == 0;
    assert FirstServed(map[], keys) == 1 + FirstServed(map[], keys[1..]);
    assert [] + [c] == [c];
  }

  lemma Pushes(s: St, c: Cid, a: Str, b: Str, x: Str)
    requires a != b && s.order == [c] && s.keysOf == map[c := [b]] && s.lists == map[]
    ensures Next(s, DoPush(a, x, true)) == s.(lists := map[a := List([x])])
  {
    assert s.order[1..] == [] && Oldest([], s.keysOf, a).None?;
    assert Oldest(s.order, s.keysOf, a) == Oldest(s.order[1..], s.keysOf, a);
    assert [x] + [] == [x];
  }
}
