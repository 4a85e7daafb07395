/** Which channel types never leave the program (gosource/channel_domain.go): types found by a walk of
    the type graph, grouped by a union-find with path compression, and certified when nothing in their
    group touches a boundary. The walk over the syntax tree is a sequence of events in any order. */
module ChannelDomain {
  import opened Common

  // ---------- Groups ----------

  /** What the traversal reports about channel types, each known by its key; the empty key is no type. */
  datatype Event = Seen(key: string) | Boundary(key: string) | Join(a: string, b: string) | Opaque

  predicate Linked(events: seq<Event>, p: string, q: string) {
    p != "" && q != "" && (Join(p, q) in events || Join(q, p) in events)
  }

  predicate IsPath(events: seq<Event>, path: seq<string>) {
    path != [] && forall i :: 0 < i < |path| ==> Linked(events, path[i - 1], path[i])
  }

  /** The same group: a path of joins, in the equivalence the joins generate. */
  ghost predicate Connected(events: seq<Event>, x: string, y: string) {
    exists path :: IsPath(events, path) && path[0] == x && path[|path| - 1] == y
  }

  lemma ConnectedSelf(events: seq<Event>, x: string)
    ensures Connected(events, x, x)
  {
    assert IsPath(events, [x]);
  }

  lemma ConnectedLink(events: seq<Event>, x: string, y: string)
    requires Linked(events, x, y)
    ensures Connected(events, x, y)
  {
    assert IsPath(events, [x, y]);
  }

  lemma ConnectedTransitive(events: seq<Event>, x: string, y: string, z: string)
    requires Connected(events, x, y) && Connected(events, y, z)
    ensures Connected(events, x, z)
  {
    hide Linked;
    var p :| IsPath(events, p) && p[0] == x && p[|p| - 1] == y;
    var q :| IsPath(events, q) && q[0] == y && q[|q| - 1] == z;
    var r := p + q[1..];
    forall i | 0 < i < |r| ensures Linked(events, r[i - 1], r[i]) {
      if i >= |p| {
        assert r[i] == q[i - |p| + 1] && r[i - 1] == q[i - |p|];
      }
    }
    assert IsPath(events, r);
  }

  lemma {:induction false} ConnectedSymmetric(events: seq<Event>, x: string, y: string)
    requires Connected(events, x, y)
    ensures Connected(events, y, x)
  {
    hide Connected;
    var path :| IsPath(events, path) && path[0] == x && path[|path| - 1] == y by { ConnectedPath(events, x, y); }
    PathBack(events, path);
  }

  lemma ConnectedPath(events: seq<Event>, x: string, y: string)
    requires Connected(events, x, y)
    ensures exists path :: IsPath(events, path) && path[0] == x && path[|path| - 1] == y
  {
  }

  lemma {:induction false} PathBack(events: seq<Event>, path: seq<string>)
    requires IsPath(events, path)
    ensures Connected(events, path[|path| - 1], path[0])
  {
    hide Connected;
    if |path| == 1 {
      ConnectedSelf(events, path[0]);
    } else {
      var rest := path[1..];
      assert forall i :: 0 < i < |rest| ==> rest[i - 1] == path[i] && rest[i] == path[i + 1];
      PathBack(events, rest);
      assert Linked(events, path[0], path[1]);
      ConnectedLink(events, path[1], path[0]);
      ConnectedTransitive(events, path[|path| - 1], path[1], path[0]);
    }
  }

  lemma MoreEventsConnect(fewer: seq<Event>, more: seq<Event>, x: string, y: string)
    requires Connected(fewer, x, y) && forall e :: e in fewer ==> e in more
    ensures Connected(more, x, y)
  {
    var path :| IsPath(fewer, path) && path[0] == x && path[|path| - 1] == y;
    assert IsPath(more, path);
  }

  /** The representative of a key, joining the groups one join at a time. */
  function Rep(events: seq<Event>, x: string): string {
    if events == [] then x
    else
      var init := events[..|events| - 1];
      match events[|events| - 1]
      case Join(a, b) =>
        if a != "" && b != "" && Rep(init, x) == Rep(init, b) then Rep(init, a) else Rep(init, x)
      case _ => Rep(init, x)
  }

  lemma RepStep(events: seq<Event>, e: Event, x: string)
    ensures Rep(events + [e], x) ==
            if e.Join? && e.a != "" && e.b != "" && Rep(events, x) == Rep(events, e.b) then Rep(events, e.a)
            else Rep(events, x)
  {
    assert (events + [e])[..|events|] == events;
  }

  /** Two keys have one representative exactly if they are in one group. */
  lemma RepIsGroup(events: seq<Event>, x: string, y: string)
    ensures Rep(events, x) == Rep(events, y) <==> Connected(events, x, y)
  {
    hide Rep, Connected;
    if Rep(events, x) == Rep(events, y) { SameRepConnects(events, x, y); }
    if Connected(events, x, y) {
      ConnectedPath(events, x, y);
      var path :| IsPath(events, path) && path[0] == x && path[|path| - 1] == y;
      PathKeepsRep(events, path);
    }
  }

  lemma {:induction false} SameRepConnects(events: seq<Event>, x: string, y: string)
    requires Rep(events, x) == Rep(events, y)
    ensures Connected(events, x, y)
    decreases |events|, 0
  {
    hide Connected, Rep;
    if events == [] {
      RepNothing(x);
      RepNothing(y);
      ConnectedSelf(events, x);
    } else {
      var init, e := events[..|events| - 1], events[|events| - 1];
      assert events == init + [e];
      RepStep(init, e, x);
      RepStep(init, e, y);
      if Rep(init, x) == Rep(init, y) {
        SameRepConnects(init, x, y);
        MoreEventsConnect(init, events, x, y);
      } else if Rep(init, x) == Rep(init, e.b) {
        JoinConnects(init, e, x, y);
      } else {
        JoinConnects(init, e, y, x);
        ConnectedSymmetric(events, y, x);
      }
    }
  }

  lemma {:induction false} JoinConnects(init: seq<Event>, e: Event, x: string, y: string)
    requires e.Join? && e.a != "" && e.b != "" && Rep(init, x) == Rep(init, e.b) && Rep(init, y) == Rep(init, e.a)
    ensures Connected(init + [e], x, y)
    decreases |init|, 1
  {
    hide Connected, Rep;
    var events := init + [e];
    SameRepConnects(init, x, e.b);
    SameRepConnects(init, e.a, y);
    MoreEventsConnect(init, events, x, e.b);
    MoreEventsConnect(init, events, e.a, y);
    ConnectedLink(events, e.b, e.a);
    ConnectedTransitive(events, x, e.b, e.a);
    ConnectedTransitive(events, x, e.a, y);
  }

  lemma RepNothing(x: string)
    ensures Rep([], x) == x
  {
  }

  lemma {:induction false} LinkKeepsRep(events: seq<Event>, p: string, q: string)
    requires Linked(events, p, q)
    ensures Rep(events, p) == Rep(events, q)
    decreases |events|
  {
    hide Rep;
    var init, e := events[..|events| - 1], events[|events| - 1];
    assert events == init + [e];
    RepStep(init, e, p);
    RepStep(init, e, q);
    if Linked(init, p, q) { LinkKeepsRep(init, p, q); }
  }

  lemma {:induction false} PathKeepsRep(events: seq<Event>, path: seq<string>)
    requires IsPath(events, path)
    ensures Rep(events, path[0]) == Rep(events, path[|path| - 1])
  {
    hide Rep, Linked;
    if |path| > 1 {
      var init := path[..|path| - 1];
      PathKeepsRep(events, init);
      LinkKeepsRep(events, path[|path| - 2], path[|path| - 1]);
    }
  }

  // ---------- The certificate ----------

  /** Seen in the program, with nothing opaque anywhere and no boundary in its group. */
  ghost predicate Local(events: seq<Event>, key: string) {
    Seen(key) in events && Opaque !in events &&
    forall k :: Boundary(k) in events ==> !Connected(events, key, k)
  }

  /** The order in which the traversal reports things, and how often, makes no difference. */
  lemma OrderDoesNotMatter(events: seq<Event>, other: seq<Event>, key: string)
    requires forall e :: e in events <==> e in other
    ensures Local(events, key) <==> Local(other, key)
  {
    hide Connected;
    forall k ensures Connected(events, key, k) <==> Connected(other, key, k) {
      if Connected(events, key, k) { MoreEventsConnect(events, other, key, k); }
      if Connected(other, key, k) { MoreEventsConnect(other, events, key, k); }
    }
  }

  // ---------- The forest of parents ----------

  type Forest = map<string, string>
  type Ranks = map<string, nat>

  /** What makes chains of parents end: each parent has a higher rank. */
  predicate RankedAt(parent: Forest, rank: Ranks, top: nat, x: string)
    requires x in parent
  {
    x in rank && rank[x] <= top && parent[x] in parent && parent[x] in rank &&
    (parent[x] != x ==> rank[x] < rank[parent[x]])
  }

  ghost predicate Ranked(parent: Forest, rank: Ranks, top: nat) {
    forall x {:trigger RankedAt(parent, rank, top, x)} :: x in parent ==> RankedAt(parent, rank, top, x)
  }

  /** A parent is in its child's group, a root represents it, and a key not met yet is alone. */
  predicate GroupedAt(parent: Forest, events: seq<Event>, x: string) {
    if x in parent then Rep(events, parent[x]) == Rep(events, x) && (parent[x] == x ==> Rep(events, x) == x)
    else Rep(events, x) == x
  }

  ghost predicate Grouped(parent: Forest, events: seq<Event>) {
    forall x {:trigger GroupedAt(parent, events, x)} :: GroupedAt(parent, events, x)
  }

  ghost predicate Sound(parent: Forest, rank: Ranks, top: nat, events: seq<Event>) {
    Ranked(parent, rank, top) && Grouped(parent, events) && "" !in parent
  }

  lemma NewKey(parent: Forest, rank: Ranks, top: nat, events: seq<Event>, x: string)
    requires Sound(parent, rank, top, events) && x !in parent && x != ""
    ensures Sound(parent[x := x], rank[x := 0], top, events)
  {
    hide Rep;
    var p, r := parent[x := x], rank[x := 0];
    forall y | y in p ensures RankedAt(p, r, top, y) {
      assert y != x ==> RankedAt(parent, rank, top, y);
    }
    forall y ensures GroupedAt(p, events, y) {
      assert GroupedAt(parent, events, y);
    }
  }

  /** Hanging a key higher up in its own group. */
  lemma Compress(parent: Forest, rank: Ranks, top: nat, events: seq<Event>, x: string, root: string)
    requires Sound(parent, rank, top, events) && x in parent && root in parent && x != ""
    requires x in rank && root in rank && rank[x] < rank[root] && Rep(events, root) == Rep(events, x)
    ensures Sound(parent[x := root], rank, top, events)
  {
    hide Rep;
    var p := parent[x := root];
    forall y | y in p ensures RankedAt(p, rank, top, y) {
      assert RankedAt(parent, rank, top, y);
    }
    forall y ensures GroupedAt(p, events, y) {
      assert GroupedAt(parent, events, y);
    }
  }

  /** Joining two groups: the second root goes under the first, which gets a rank above all. */
  lemma Merge(parent: Forest, rank: Ranks, top: nat, events: seq<Event>, a: string, b: string)
    requires Sound(parent, rank, top, events) && a != "" && b != ""
    requires var ra, rb := Rep(events, a), Rep(events, b);
             ra in parent && parent[ra] == ra && rb in parent && parent[rb] == rb && ra != rb
    ensures var ra, rb := Rep(events, a), Rep(events, b);
            Sound(parent[rb := ra], rank[ra := top + 1], top + 1, events + [Join(a, b)])
  {
    hide Rep;
    var ra, rb := Rep(events, a), Rep(events, b);
    var p, r, e := parent[rb := ra], rank[ra := top + 1], events + [Join(a, b)];
    assert RankedAt(parent, rank, top, ra) && RankedAt(parent, rank, top, rb);
    assert GroupedAt(parent, events, ra) && GroupedAt(parent, events, rb);
    forall y | y in p ensures RankedAt(p, r, top + 1, y) {
      assert RankedAt(parent, rank, top, y);
    }
    forall y ensures GroupedAt(p, e, y) {
      assert GroupedAt(parent, events, y);
      RepStep(events, Join(a, b), y);
      RepStep(events, Join(a, b), ra);
      if y in parent { RepStep(events, Join(a, b), parent[y]); }
    }
  }

  /** A report that joins nothing new leaves every group. */
  lemma SameGroups(parent: Forest, rank: Ranks, top: nat, events: seq<Event>, e: Event)
    requires Sound(parent, rank, top, events)
    requires e.Join? && e.a != "" && e.b != "" ==> Rep(events, e.a) == Rep(events, e.b)
    ensures Sound(parent, rank, top, events + [e])
  {
    hide Rep;
    forall y ensures GroupedAt(parent, events + [e], y) {
      assert GroupedAt(parent, events, y);
      RepStep(events, e, y);
      if y in parent { RepStep(events, e, parent[y]); }
    }
  }

  lemma AtKey(parent: Forest, rank: Ranks, top: nat, events: seq<Event>, x: string)
    requires Sound(parent, rank, top, events) && x in parent
    ensures x in rank && rank[x] <= top && x != ""
    ensures parent[x] in parent && parent[x] in rank && Rep(events, parent[x]) == Rep(events, x)
    ensures if parent[x] == x then Rep(events, x) == x else rank[x] < rank[parent[x]]
  {
    hide Rep;
    assert RankedAt(parent, rank, top, x) && GroupedAt(parent, events, x);
  }

  ghost predicate Recorded(candidates: set<string>, boundary: set<string>, opaque_: bool, events: seq<Event>) {
    (forall k :: k in candidates <==> Seen(k) in events) && (forall k :: k in boundary <==> Boundary(k) in events) &&
    (opaque_ <==> Opaque in events) && "" !in candidates && "" !in boundary
  }

  lemma RecordedJoin(candidates: set<string>, boundary: set<string>, opaque_: bool, events: seq<Event>, a: string, b: string)
    requires Recorded(candidates, boundary, opaque_, events)
    ensures Recorded(candidates, boundary, opaque_, events + [Join(a, b)])
  {
  }

  class Planner {
    var parent: Forest
    var candidates: set<string>
    var boundary: set<string>
    var opaque_: bool
    /** What has been reported. */
    ghost var events: seq<Event>
    ghost var rank: Ranks
    ghost var top: nat

    constructor ()
      ensures Valid() && events == []
    {
      parent, candidates, boundary, opaque_ := map[], {}, {}, false;
      events, rank, top := [], map[], 0;
    }

    ghost predicate Valid()
      reads this
    {
      Sound(parent, rank, top, events) && Recorded(candidates, boundary, opaque_, events)
    }

    ghost function Level(x: string): nat
      reads this
    {
      if x in rank && rank[x] <= top then top - rank[x] else top + 1
    }

    /** The representative; every key on the way is hung directly under it. */
    method Find(x: string) returns (r: string)
      requires Valid() && x != ""
      modifies this`parent, this`rank
      ensures Valid() && r == Rep(events, x)
      ensures x in parent && r in parent && parent[r] == r
      ensures forall y :: y in old(parent) ==> y in parent && (old(parent[y]) == y ==> parent[y] == y)
      ensures forall y :: y in old(parent) && y in old(rank) ==> y in rank && rank[y] == old(rank[y])
      ensures x in rank && r in rank && rank[x] <= rank[r]
      decreases Level(x)
    {
      hide Rep, Sound, Recorded;
      if x !in parent {
        NewKey(parent, rank, top, events, x);
        parent, rank := parent[x := x], rank[x := 0];
      }
      AtKey(parent, rank, top, events, x);
      if parent[x] != x {
        AtKey(parent, rank, top, events, parent[x]);
        var root := Find(parent[x]);
        AtKey(parent, rank, top, events, root);
        AtKey(parent, rank, top, events, x);
        Compress(parent, rank, top, events, x, root);
        parent := parent[x := root];
      }
      return parent[x];
    }

    /** Every report leaves the groups as the joins reported so far make them. */
    method Union(a: string, b: string)
      requires Valid()
      modifies this
      ensures Valid() && events == old(events) + [Join(a, b)]
    {
      hide Rep, Sound, Recorded;
      RecordedJoin(candidates, boundary, opaque_, events, a, b);
      if a != "" && b != "" {
        var ra := Find(a);
        var rb := Find(b);
        if ra != rb {
          Merge(parent, rank, top, events, a, b);
          parent := parent[rb := ra];
          rank, top := rank[ra := top + 1], top + 1;
        } else {
          SameGroups(parent, rank, top, events, Join(a, b));
        }
      } else {
        SameGroups(parent, rank, top, events, Join(a, b));
      }
      events := events + [Join(a, b)];
    }

    method Note(key: string)
      requires Valid() && key != ""
      modifies this`candidates, this`events
      ensures Valid() && events == old(events) + [Seen(key)]
    {
      hide Rep, Sound;
      candidates := candidates + {key};
      SameGroups(parent, rank, top, events, Seen(key));
      events := events + [Seen(key)];
    }

    method MarkKey(key: string)
      requires Valid() && key != ""
      modifies this`boundary, this`events
      ensures Valid() && events == old(events) + [Boundary(key)]
    {
      hide Rep, Sound;
      boundary := boundary + {key};
      SameGroups(parent, rank, top, events, Boundary(key));
      events := events + [Boundary(key)];
    }

    method GiveUp()
      requires Valid()
      modifies this`opaque_, this`events
      ensures Valid() && events == old(events) + [Opaque]
    {
      hide Rep, Sound;
      opaque_ := true;
      SameGroups(parent, rank, top, events, Opaque);
      events := events + [Opaque];
    }

    /** Assigning between two types joins every channel of one with every channel of the other. */
    method UnionTypes(aKeys: seq<string>, bKeys: seq<string>)
      requires Valid()
      modifies this
      ensures Valid()
      ensures forall e :: e in events <==> e in old(events) || (e.Join? && e.a in aKeys && e.b in bKeys)
    {
      hide Rep, Sound, Recorded;
      for i := 0 to |aKeys|
        invariant Valid()
        invariant forall e :: e in events <==> (e in old(events) || (e.Join? && e.a in aKeys[..i] && e.b in bKeys))
      {
        for j := 0 to |bKeys|
          invariant Valid()
          invariant forall e :: e in events <==> (e in old(events) || (e.Join? && e.a in aKeys[..i] && e.b in bKeys) ||
                                                  (e.Join? && e.a == aKeys[i] && e.b in bKeys[..j]))
        {
          Union(aKeys[i], bKeys[j]);
          assert bKeys[..j + 1] == bKeys[..j] + [bKeys[j]];
        }
        assert bKeys[..|bKeys|] == bKeys && aKeys[..i + 1] == aKeys[..i] + [aKeys[i]];
      }
      assert aKeys[..|aKeys|] == aKeys;
    }

    /** The cases of one select statement are in one group, that of the first. */
    method Select(keys: seq<string>)
      requires Valid()
      modifies this
      ensures Valid()
      ensures forall k :: Seen(k) in events <==> Seen(k) in old(events) || (k in keys && k != "")
      ensures forall k :: Boundary(k) in events <==> Boundary(k) in old(events)
      ensures Opaque in events <==> Opaque in old(events)
      ensures forall e :: e in old(events) ==> e in events
      ensures forall j, k :: j in keys && k in keys && j != "" && k != "" ==> Connected(events, j, k)
      ensures forall p, q :: Join(p, q) in events ==> Join(p, q) in old(events) || (p in keys && q in keys)
    {
      hide Rep, Sound, Recorded, Connected;
      var first := "";
      for i := 0 to |keys|
        invariant Valid()
        invariant forall k :: Seen(k) in events <==> Seen(k) in old(events) || (k in keys[..i] && k != "")
        invariant forall k :: Boundary(k) in events <==> Boundary(k) in old(events)
        invariant Opaque in events <==> Opaque in old(events)
        invariant forall e :: e in old(events) ==> e in events
        invariant forall p, q :: Join(p, q) in events ==> Join(p, q) in old(events) || (p in keys && q in keys)
        invariant first != "" ==> first in keys
        invariant first == "" ==> forall k :: k in keys[..i] ==> k == ""
        invariant forall k :: k in keys[..i] && k != "" ==> k == first || Join(first, k) in events
      {
        assert keys[..i + 1] == keys[..i] + [keys[i]];
        var key := keys[i];
        if key == "" {
          continue;
        }
        Note(key);
        if first == "" {
          first := key;
        } else {
          Union(first, key);
        }
      }
      assert keys[..|keys|] == keys;
      forall j, k | j in keys && k in keys && j != "" && k != "" ensures Connected(events, j, k) {
        ThroughFirst(events, first, j, k);
      }
    }

    /** The certificate: exactly the seen keys whose group meets no boundary, if nothing is opaque. */
    method Certify() returns (localTypes: set<string>)
      requires Valid()
      modifies this`parent, this`rank
      ensures Valid() && events == old(events)
      ensures forall key :: key in localTypes <==> Local(events, key)
    {
      hide Rep, Sound, Connected;
      var bad := {};
      var rest := boundary;
      while rest != {}
        invariant Valid() && rest <= boundary
        invariant forall r :: r in bad <==> exists k :: k in boundary - rest && Rep(events, k) == r
        decreases rest
      {
        assert (forall k :: k !in rest) ==> rest == {};
        var key :| key in rest;
        rest := rest - {key};
        var r := Find(key);
        bad := bad + {r};
      }
      localTypes := {};
      rest := candidates;
      while rest != {}
        invariant Valid() && rest <= candidates
        invariant forall k :: k in localTypes <==> k in candidates - rest && !opaque_ && Rep(events, k) !in bad
        decreases rest
      {
        assert (forall k :: k !in rest) ==> rest == {};
        var key :| key in rest;
        rest := rest - {key};
        var r := Find(key);
        if !opaque_ && r !in bad {
          localTypes := localTypes + {key};
        }
      }
      forall key ensures key in localTypes <==> Local(events, key) {
        forall k ensures Rep(events, key) == Rep(events, k) <==> Connected(events, key, k) {
          RepIsGroup(events, key, k);
        }
      }
    }
  }

  predicate Named(e: Event) { (e.Seen? || e.Boundary?) ==> e.key != "" }

  /** The whole plan, for reports in whatever order the traversal makes them. */
  method Plan(reports: seq<Event>) returns (localTypes: set<string>)
    requires forall e :: e in reports ==> Named(e)
    ensures forall key :: key in localTypes <==> Local(reports, key)
  {
    hide Local;
    var planner := new Planner();
    for i := 0 to |reports|
      invariant fresh(planner) && planner.Valid() && planner.events == reports[..i]
    {
      assert reports[..i + 1] == reports[..i] + [reports[i]] && Named(reports[i]);
      match reports[i]
      case Seen(key) => planner.Note(key);
      case Boundary(key) => planner.MarkKey(key);
      case Join(a, b) => planner.Union(a, b);
      case Opaque => planner.GiveUp();
    }
    assert reports[..|reports|] == reports;
    localTypes := planner.Certify();
  }

  lemma ThroughFirst(events: seq<Event>, first: string, j: string, k: string)
    requires j != "" && k != "" && first != ""
    requires (j == first || Join(first, j) in events) && (k == first || Join(first, k) in events)
    ensures Connected(events, j, k)
  {
    hide Connected;
    ConnectedSelf(events, first);
    if j != first { ConnectedLink(events, j, first); }
    if k != first { ConnectedLink(events, first, k); }
    ConnectedTransitive(events, j, first, k);
  }

  // ---------- Imported functions ----------

  /** A right-hand side: an identifier, imported or not, or anything else, known to be imported or not. */
  datatype Rhs = Name(obj: nat, imported: bool) | Other(imported: bool)

  /** An identifier that stands for an object, bound to a right-hand side. */
  datatype Bind = Bind(target: nat, rhs: Rhs)

  predicate Native(funcs: set<nat>, rhs: Rhs) {
    rhs.imported || (rhs.Name? && rhs.obj in funcs)
  }

  predicate ClosedUnder(binds: seq<Bind>, funcs: set<nat>) {
    forall i :: 0 <= i < |binds| ==> Native(funcs, binds[i].rhs) ==> binds[i].target in funcs
  }

  function Targets(binds: seq<Bind>): set<nat> {
    set i | 0 <= i < |binds| :: binds[i].target
  }

  /** An imported function reaches an object through a chain of bindings. */
  least predicate Reaches(binds: seq<Bind>, obj: nat) {
    exists i :: 0 <= i < |binds| && binds[i].target == obj &&
                (binds[i].rhs.imported || (binds[i].rhs.Name? && Reaches(binds, binds[i].rhs.obj)))
  }

  /** The passes over all bindings, until one changes nothing. */
  method NativeFuncs(binds: seq<Bind>) returns (funcs: set<nat>)
    ensures ClosedUnder(binds, funcs)
    ensures forall other :: ClosedUnder(binds, other) ==> funcs <= other
    ensures forall obj :: obj in funcs <==> Reaches(binds, obj)
  {
    funcs := {};
    var changed := true;
    while changed
      invariant funcs <= Targets(binds)
      invariant forall obj :: obj in funcs ==> Reaches(binds, obj)
      invariant !changed ==> ClosedUnder(binds, funcs)
      decreases Targets(binds) - funcs, changed
    {
      changed := false;
      ghost var was := funcs;
      for i := 0 to |binds|
        invariant was <= funcs <= Targets(binds)
        invariant forall obj :: obj in funcs ==> Reaches(binds, obj)
        invariant changed <==> was != funcs
        invariant !changed ==> forall j :: 0 <= j < i ==> Native(funcs, binds[j].rhs) ==> binds[j].target in funcs
      {
        var o := binds[i].target;
        if Native(funcs, binds[i].rhs) && o !in funcs {
          assert o in Targets(binds) - funcs;
          funcs, changed := funcs + {o}, true;
        }
      }
    }
    forall other | ClosedUnder(binds, other) ensures funcs <= other {
      forall obj | obj in funcs ensures obj in other {
        ReachesIsLeast(binds, other, obj);
      }
    }
    forall obj | Reaches(binds, obj) ensures obj in funcs {
      ReachesIsLeast(binds, funcs, obj);
    }
  }

  least lemma ReachesIsLeast(binds: seq<Bind>, funcs: set<nat>, obj: nat)
    requires ClosedUnder(binds, funcs) && Reaches(binds, obj)
    ensures obj in funcs
  {
    var i :| 0 <= i < |binds| && binds[i].target == obj &&
             (binds[i].rhs.imported || (binds[i].rhs.Name? && Reaches(binds, binds[i].rhs.obj)));
    if !binds[i].rhs.imported { ReachesIsLeast(binds, funcs, binds[i].rhs.obj); }
  }

  // ---------- The channels inside a type ----------

  /** A type: the key of a channel type, or empty, and the types the walk goes on to. A type that is not
      in the graph is Go's nil. */
  datatype TypeNode = TypeNode(key: string, next: seq<nat>)

  type Graph = map<nat, TypeNode>

  predicate Edge(g: Graph, t: nat, u: nat) { t in g && u in g && u in g[t].next }

  least predicate Reachable(g: Graph, from: nat, t: nat) {
    from in g && (t == from || exists s :: Reachable(g, from, s) && Edge(g, s, t))
  }

  class KeyWalk {
    var seen: set<nat>
    var keys: set<string>

    constructor ()
      ensures seen == {} && keys == {}
    {
      seen, keys := {}, {};
    }

    ghost predicate KeysOfSeen(g: Graph)
      reads this
    {
      seen <= g.Keys && forall key :: key in keys <==> key != "" && exists t :: t in seen && g[t].key == key
    }

    /** Visits what is not seen yet: all of it reachable, and nothing newly seen leads out. */
    method Visit(g: Graph, t: nat)
      requires KeysOfSeen(g)
      modifies this
      ensures KeysOfSeen(g) && old(seen) <= seen && (t in g ==> t in seen)
      ensures forall u :: u in seen - old(seen) ==> Reachable(g, t, u)
      ensures forall u, w :: u in seen - old(seen) && Edge(g, u, w) ==> w in seen
      decreases g.Keys - seen
    {
      if t !in g || t in seen {
        return;
      }
      seen := seen + {t};
      if g[t].key != "" {
        keys := keys + {g[t].key};
      }
      for i := 0 to |g[t].next|
        invariant KeysOfSeen(g) && old(seen) + {t} <= seen
        invariant forall u :: u in seen - old(seen) ==> Reachable(g, t, u)
        invariant forall u, w :: u in seen - old(seen) - {t} && Edge(g, u, w) ==> w in seen
        invariant forall j :: 0 <= j < i && g[t].next[j] in g ==> g[t].next[j] in seen
      {
        ghost var was := seen;
        Visit(g, g[t].next[i]);
        forall u | u in seen - was ensures Reachable(g, t, u) {
          Through(g, t, g[t].next[i], u);
        }
      }
    }
  }

  least lemma Through(g: Graph, t: nat, s: nat, u: nat)
    requires Reachable(g, s, u) && Edge(g, t, s)
    ensures Reachable(g, t, u)
  {
  }

  /** The keys found in a type are exactly those of the channel types it leads to. */
  method ChannelTypeKeys(g: Graph, t: nat) returns (keys: set<string>)
    ensures forall key :: key in keys <==> key != "" && exists u :: Reachable(g, t, u) && u in g && g[u].key == key
  {
    var walk := new KeyWalk();
    walk.Visit(g, t);
    forall u | Reachable(g, t, u) ensures u in walk.seen {
      SeenIsClosed(g, t, walk.seen, u);
    }
    return walk.keys;
  }

  least lemma SeenIsClosed(g: Graph, t: nat, seen: set<nat>, u: nat)
    requires (t in g ==> t in seen) && forall s, w :: s in seen && Edge(g, s, w) ==> w in seen
    requires Reachable(g, t, u)
    ensures u in seen
  {
  }

  /** A forest of two keys after one join. */
  lemma TwoKeys()
    ensures Sound(map["a" := "a", "b" := "a"], map["a" := 1, "b" := 0], 1, [Join("a", "b")])
    ensures Connected([Join("a", "b")], "b", "a")
  {
    var events := [Join("a", "b")];
    assert events[..0] == [];
    forall x ensures Rep(events, x) == if x == "b" then "a" else x {
      assert Rep(events[..0], x) == x && Rep(events[..0], "b") == "b" && Rep(events[..0], "a") == "a";
    }
    RepIsGroup(events, "b", "a");
  }
}
