/** The rock group and the missile group: mutable sets of sprites, identified by object,
    and the three passes the game runs over them each tick. Every pass walks a snapshot of
    the group taken before it starts while removing members from the live group. */
module Groups {
  import opened Geometry
  import opened Assets
  import opened Sprites

  /** A Python set of sprites, shared by reference between the game and the passes. */
  class Group {
    var members: set<Sprite>

    constructor ()
      ensures members == {}
    {
      members := {};
    }

    method Add(s: Sprite)
      modifies this`members
      ensures members == old(members) + {s}
    {
      members := members + {s};
    }

    /** Python's set.remove, which fails on an absent member. */
    method Remove(s: Sprite)
      requires s in members
      modifies this`members
      ensures members == old(members) - {s}
    {
      members := members - {s};
    }
  }

  /** The members of `group` that overlap an object at `pos` with radius `radius`. */
  function HitBy(group: set<Sprite>, pos: Vec, radius: int): (hit: set<Sprite>)
    reads group
    ensures hit <= group
    ensures forall s :: s in group ==> (s in hit <==> s.CollidesWith(pos, radius))
  {
    set s | s in group && s.CollidesWith(pos, radius)
  }

  function Elements(order: seq<Sprite>): set<Sprite> {
    set r | r in order
  }

  predicate Distinct(order: seq<Sprite>) {
    forall i, j :: 0 <= i < j < |order| ==> order[i] != order[j]
  }

  /** `order` lists every member of `group` exactly once: a walk over a snapshot of it. */
  predicate Enumerates(order: seq<Sprite>, group: set<Sprite>)
    decreases |order|
  {
    if order == [] then group == {} else order[0] in group && Enumerates(order[1..], group - {order[0]})
  }

  lemma {:induction false} EnumeratesIff(order: seq<Sprite>, group: set<Sprite>)
    ensures Enumerates(order, group) <==> Distinct(order) && Elements(order) == group
    decreases |order|
  {
    if order != [] {
      var x, tail := order[0], order[1..];
      EnumeratesIff(tail, group - {x});
      assert order == [x] + tail;
      assert Elements(order) == {x} + Elements(tail);
      assert Distinct(order) <==> Distinct(tail) && x !in Elements(tail) by {
        if Distinct(tail) && x !in Elements(tail) {
          forall i, j | 0 <= i < j < |order| ensures order[i] != order[j] {
            if i > 0 {
              assert order[i] == tail[i - 1] && order[j] == tail[j - 1];
            } else {
              assert order[j] == tail[j - 1];
            }
          }
        }
        if Distinct(order) {
          forall i, j | 0 <= i < j < |tail| ensures tail[i] != tail[j] {
            assert tail[i] == order[i + 1] && tail[j] == order[j + 1];
          }
        }
      }
    }
  }

  lemma CardDifference(a: set<Sprite>, b: set<Sprite>)
    requires b <= a
    ensures |a - b| == |a| - |b|
  {
    assert a == (a - b) + b;
    assert (a - b) * b == {};
  }

  /** Where a sprite is and how large it is: all that the collision passes look at. */
  datatype Body = Body(pos: Vec, radius: int)

  predicate Hits(a: Body, b: Body) {
    Collides(a.pos, b.pos, a.radius, b.radius)
  }

  /** `bodies` records where each sprite of `group` is now and how large it is. */
  predicate Snapshot(bodies: map<Sprite, Body>, group: set<Sprite>)
    reads group
  {
    group <= bodies.Keys && forall s :: s in group ==> bodies[s] == Body(s.pos, s.radius)
  }

  /** The bodies the rocks and the missiles will have after their next update. */
  function NextBodies(rocks: set<Sprite>, missiles: set<Sprite>): (bodies: map<Sprite, Body>)
    reads rocks, missiles
    ensures forall s :: s in rocks ==> s in bodies && bodies[s] == Body(Advance(s.State()).pos, s.radius)
    ensures forall s :: s in missiles ==> s in bodies && bodies[s] == Body(Advance(s.State()).pos, s.radius)
  {
    map s | s in rocks + missiles :: Body(Advance(s.State()).pos, s.radius)
  }

  /** The members that will not have expired after their next update. */
  function Survivors(group: set<Sprite>): (live: set<Sprite>)
    reads group
    ensures live <= group
    ensures forall s :: s in group ==> (s in live <==> !Expired(Advance(s.State()).age, s.lifespan))
  {
    set s | s in group && !Expired(s.age + 1, s.lifespan)
  }

  /** The members of `group` whose bodies overlap `other`. */
  function HitIn(group: set<Sprite>, other: Body, bodies: map<Sprite, Body>): (hit: set<Sprite>)
    requires group <= bodies.Keys
    ensures hit <= group
    ensures forall s :: s in group ==> (s in hit <==> Hits(bodies[s], other))
  {
    set s | s in group && Hits(bodies[s], other)
  }

  /** On sprites whose snapshot is current, HitBy and HitIn agree. */
  lemma HitByMatchesSnapshot(group: set<Sprite>, pos: Vec, radius: int, bodies: map<Sprite, Body>)
    requires Snapshot(bodies, group)
    ensures HitBy(group, pos, radius) == HitIn(group, Body(pos, radius), bodies)
  {
  }

  /** The outcome of the missiles-against-rocks pass. */
  datatype PassResult = PassResult(rocksHit: set<Sprite>, missilesLeft: set<Sprite>, count: int)

  /** The missiles-against-rocks pass over the rocks in the order `order`, starting from the
      missiles `missiles`, with the bodies `bodies`: each rock in turn removes every missile
      still present that it overlaps, and goes itself when it removed at least one. Each
      removed missile is one point, so the count is the number of missiles removed, however
      many rocks each of them overlapped. */
  function Pass(order: seq<Sprite>, missiles: set<Sprite>, bodies: map<Sprite, Body>): (r: PassResult)
    requires Elements(order) <= bodies.Keys && missiles <= bodies.Keys
    ensures r.missilesLeft <= missiles
    ensures r.rocksHit <= Elements(order)
    decreases |order|
  {
    if order == [] then PassResult({}, missiles, 0)
    else
      var init := order[..|order| - 1];
      var rock := order[|order| - 1];
      assert Elements(init) <= Elements(order);
      var prev := Pass(init, missiles, bodies);
      var hit := HitIn(prev.missilesLeft, bodies[rock], bodies);
      PassResult(if hit != {} then prev.rocksHit + {rock} else prev.rocksHit,
                 prev.missilesLeft - hit,
                 prev.count + |hit|)
  }

  /** Pass on one more rock: that rock's turn comes after all the earlier ones. */
  lemma PassStep(order: seq<Sprite>, rock: Sprite, missiles: set<Sprite>, bodies: map<Sprite, Body>)
    requires Elements(order) <= bodies.Keys && rock in bodies && missiles <= bodies.Keys
    ensures Elements(order + [rock]) == Elements(order) + {rock}
    ensures var prev := Pass(order, missiles, bodies);
            var hit := HitIn(prev.missilesLeft, bodies[rock], bodies);
            Pass(order + [rock], missiles, bodies)
            == PassResult(if hit != {} then prev.rocksHit + {rock} else prev.rocksHit,
                          prev.missilesLeft - hit, prev.count + |hit|)
  {
    assert (order + [rock])[..|order|] == order;
  }

  /** The score of the pass is the number of missiles it removed: a missile that overlapped
      several rocks is counted once. */
  lemma {:induction false} PassCountsRemovedMissiles(order: seq<Sprite>, missiles: set<Sprite>, bodies: map<Sprite, Body>)
    requires Elements(order) <= bodies.Keys && missiles <= bodies.Keys
    ensures Pass(order, missiles, bodies).count == |missiles| - |Pass(order, missiles, bodies).missilesLeft|
    decreases |order|
  {
    if order != [] {
      var init := order[..|order| - 1];
      assert Elements(init) <= Elements(order);
      PassCountsRemovedMissiles(init, missiles, bodies);
      var prev := Pass(init, missiles, bodies);
      CardDifference(prev.missilesLeft, HitIn(prev.missilesLeft, bodies[order[|order| - 1]], bodies));
    }
  }

  /** The number group_collide returns is the drop in the group's size. */
  lemma CollideCountIsSizeDrop(before: set<Sprite>, pos: Vec, radius: int)
    ensures |HitBy(before, pos, radius)| == |before| - |before - HitBy(before, pos, radius)|
  {
    CardDifference(before, HitBy(before, pos, radius));
  }

  /** A rock is removed exactly when, on its turn, at least one missile still present
      overlaps it; the missiles present on its turn are those the earlier rocks left. */
  lemma {:induction false} RockRemovedIffHitOnItsTurn(order: seq<Sprite>, missiles: set<Sprite>, bodies: map<Sprite, Body>, i: nat)
    requires Elements(order) <= bodies.Keys && missiles <= bodies.Keys
    requires Distinct(order) && i < |order|
    ensures Elements(order[..i]) <= bodies.Keys
    ensures order[i] in Pass(order, missiles, bodies).rocksHit
            <==> HitIn(Pass(order[..i], missiles, bodies).missilesLeft, bodies[order[i]], bodies) != {}
    decreases |order|
  {
    var n := |order| - 1;
    var init := order[..n];
    assert order == init + [order[n]];
    assert Elements(init) <= Elements(order);
    assert Elements(order[..i]) <= Elements(order);
    PassStep(init, order[n], missiles, bodies);
    if i < n {
      assert Distinct(init);
      assert init[..i] == order[..i];
      RockRemovedIffHitOnItsTurn(init, missiles, bodies, i);
      assert order[i] != order[n];
    } else {
      assert order[..i] == init;
      assert order[n] !in Elements(init);
    }
  }

  /** A rock that stays overlaps none of the missiles that stay. */
  lemma {:induction false} SurvivingRocksMissSurvivingMissiles(order: seq<Sprite>, missiles: set<Sprite>, bodies: map<Sprite, Body>, rock: Sprite, m: Sprite)
    requires Elements(order) <= bodies.Keys && missiles <= bodies.Keys
    requires rock in order && rock !in Pass(order, missiles, bodies).rocksHit
    requires m in Pass(order, missiles, bodies).missilesLeft
    ensures !Hits(bodies[m], bodies[rock])
    decreases |order|
  {
    var n := |order| - 1;
    var init := order[..n];
    assert Elements(init) <= Elements(order);
    var prev := Pass(init, missiles, bodies);
    if rock == order[n] {
      assert m in prev.missilesLeft;
    } else {
      assert rock in init;
      assert rock !in prev.rocksHit;
      SurvivingRocksMissSurvivingMissiles(init, missiles, bodies, rock, m);
    }
  }

  /** Every missile the pass removed overlaps a rock the pass removed. */
  lemma {:induction false} RemovedMissileHitRemovedRock(order: seq<Sprite>, missiles: set<Sprite>, bodies: map<Sprite, Body>, m: Sprite)
    requires Elements(order) <= bodies.Keys && missiles <= bodies.Keys
    requires m in missiles && m !in Pass(order, missiles, bodies).missilesLeft
    ensures exists i :: 0 <= i < |order| && order[i] in Pass(order, missiles, bodies).rocksHit
                        && Hits(bodies[m], bodies[order[i]])
    decreases |order|
  {
    var n := |order| - 1;
    var init := order[..n];
    assert Elements(init) <= Elements(order);
    var prev := Pass(init, missiles, bodies);
    if m in prev.missilesLeft {
      assert Hits(bodies[m], bodies[order[n]]);
    } else {
      RemovedMissileHitRemovedRock(init, missiles, bodies, m);
      var i :| 0 <= i < |init| && init[i] in prev.rocksHit && Hits(bodies[m], bodies[init[i]]);
      assert order[i] == init[i];
    }
  }

  /** One missile overlapping two rocks: the rock processed first takes it and is removed,
      the second stays, and only one point is scored. */
  lemma OneMissileTwoRocks(first: Sprite, second: Sprite, m: Sprite, bodies: map<Sprite, Body>)
    requires first in bodies && second in bodies && m in bodies && first != second
    requires Hits(bodies[m], bodies[first]) && Hits(bodies[m], bodies[second])
    ensures Elements([first, second]) <= bodies.Keys
    ensures Pass([first, second], {m}, bodies) == PassResult({first}, {}, 1)
  {
    PassStep([], first, {m}, bodies);
    assert HitIn({m}, bodies[first], bodies) == {m};
    assert {m} - {m} == {};
    PassStep([first], second, {m}, bodies);
    assert HitIn({}, bodies[second], bodies) == {};
  }

  /** One rock overlapping two missiles: the rock is removed, both missiles go, and two
      points are scored. */
  lemma TwoMissilesOneRock(rock: Sprite, m1: Sprite, m2: Sprite, bodies: map<Sprite, Body>)
    requires rock in bodies && m1 in bodies && m2 in bodies && m1 != m2
    requires Hits(bodies[m1], bodies[rock]) && Hits(bodies[m2], bodies[rock])
    ensures Elements([rock]) <= bodies.Keys
    ensures Pass([rock], {m1, m2}, bodies) == PassResult({rock}, {}, 2)
  {
    PassStep([], rock, {m1, m2}, bodies);
    assert HitIn({m1, m2}, bodies[rock], bodies) == {m1, m2};
    assert {m1, m2} - {m1, m2} == {};
  }

  /** Removing one more rock from the group. */
  lemma RemoveOne(all: set<Sprite>, gone: set<Sprite>, x: Sprite)
    ensures (all - gone) - {x} == all - (gone + {x})
  {
  }

  /** Appending one rock to the order: the pass over the longer order is one more turn. */
  lemma PassExtend(order: seq<Sprite>, rock: Sprite, missiles: set<Sprite>, bodies: map<Sprite, Body>,
                   done: PassResult, hit: set<Sprite>, next: PassResult)
    requires Elements(order) <= bodies.Keys && rock in bodies && missiles <= bodies.Keys
    requires done == Pass(order, missiles, bodies)
    requires done.missilesLeft <= bodies.Keys && hit == HitIn(done.missilesLeft, bodies[rock], bodies)
    requires next == PassResult(if hit != {} then done.rocksHit + {rock} else done.rocksHit,
                                done.missilesLeft - hit, done.count + |hit|)
    ensures Elements(order + [rock]) <= bodies.Keys
    ensures next == Pass(order + [rock], missiles, bodies)
  {
    PassStep(order, rock, missiles, bodies);
  }

  /** Appending a rock of the unvisited part keeps the order free of repeats and moves the
      rock to the visited part. */
  lemma ExtendOrder(order: seq<Sprite>, rock: Sprite, all: set<Sprite>, rest: set<Sprite>)
    requires Distinct(order) && Elements(order) == all - rest && rock in rest && rest <= all
    ensures Distinct(order + [rock]) && Elements(order + [rock]) == all - (rest - {rock})
  {
    assert Elements(order + [rock]) == Elements(order) + {rock};
    VisitOne(all, rest, rock);
  }

  /** Moving one element of `rest` to the visited part of `all`. */
  lemma VisitOne(all: set<Sprite>, rest: set<Sprite>, x: Sprite)
    requires x in rest && rest <= all
    ensures all - (rest - {x}) == (all - rest) + {x}
  {
  }

  /** process_sprite_group: updates every member of the snapshot once and removes those
      whose update reported expiry. Nothing is added. */
  method ProcessSpriteGroup(g: Group)
    modifies g`members, g.members
    ensures forall s :: s in old(g.members) ==> s.State() == Advance(old(s.State()))
    ensures g.members == old(Survivors(g.members))
  {
    var snapshot := g.members;
    ghost var done: set<Sprite> := {};
    while snapshot != {}
      invariant snapshot !! done && snapshot + done == old(g.members)
      invariant forall s :: s in done ==> s.State() == Advance(old(s.State()))
      invariant forall s :: s in snapshot ==> s.State() == old(s.State())
      invariant g.members == old(Survivors(done)) + snapshot
      decreases snapshot
    {
      var s :| s in snapshot;
      var expired := s.Update();
      if expired {
        g.Remove(s);
      }
      snapshot := snapshot - {s};
      done := done + {s};
    }
  }

  /** group_collide: removes every member that overlaps the other object and returns how
      many it removed. The other object and the members are not changed. */
  method GroupCollide(g: Group, otherPos: Vec, otherRadius: int) returns (count: int)
    modifies g`members
    ensures g.members == old(g.members) - HitBy(old(g.members), otherPos, otherRadius)
    ensures count == |HitBy(old(g.members), otherPos, otherRadius)|
  {
    count := 0;
    var snapshot := g.members;
    ghost var removed: set<Sprite> := {};
    while snapshot != {}
      invariant snapshot <= old(g.members)
      invariant removed == HitBy(old(g.members) - snapshot, otherPos, otherRadius)
      invariant g.members == old(g.members) - removed
      invariant count == |removed|
      decreases snapshot
    {
      var s :| s in snapshot;
      if s.CollidesWith(otherPos, otherRadius) {
        g.Remove(s);
        count := count + 1;
        removed := removed + {s};
      }
      snapshot := snapshot - {s};
    }
  }

  /** group_group_collide: each rock of a snapshot, in some order, removes the missiles it
      overlaps and is removed itself when it removed any. Returns the number of missiles
      removed. `order` is the order the snapshot was walked in and `bodies` records where
      the sprites are; no sprite moves meanwhile. */
  method GroupGroupCollide(rocks: Group, missiles: Group, ghost bodies: map<Sprite, Body>)
    returns (total: int, ghost order: seq<Sprite>)
    requires rocks != missiles && Snapshot(bodies, rocks.members) && Snapshot(bodies, missiles.members)
    modifies rocks`members, missiles`members
    ensures Distinct(order) && Elements(order) == old(rocks.members)
    ensures var p := Pass(order, old(missiles.members), bodies);
            && rocks.members == old(rocks.members) - p.rocksHit
            && missiles.members == p.missilesLeft
            && total == p.count
  {
    ghost var rocks0, missiles0 := rocks.members, missiles.members;
    ghost var done := PassResult({}, missiles0, 0);
    total := 0;
    order := [];
    var snapshot := rocks.members;
    while snapshot != {}
      invariant snapshot <= rocks0 && Elements(order) == rocks0 - snapshot
      invariant Distinct(order)
      invariant done == Pass(order, missiles0, bodies)
      invariant rocks.members == rocks0 - done.rocksHit
      invariant missiles.members == done.missilesLeft
      invariant total == done.count
      decreases snapshot
    {
      var rock :| rock in snapshot;
      ghost var hit := HitIn(done.missilesLeft, bodies[rock], bodies);
      assert HitBy(missiles.members, rock.pos, rock.radius) == hit by {
        HitByMatchesSnapshot(missiles.members, rock.pos, rock.radius, bodies);
      }
      var hits := GroupCollide(missiles, rock.pos, rock.radius);
      if hits > 0 {
        rocks.Remove(rock);
        RemoveOne(rocks0, done.rocksHit, rock);
      }
      total := total + hits;
      ghost var next := PassResult(if hit != {} then done.rocksHit + {rock} else done.rocksHit,
                                   done.missilesLeft - hit, done.count + |hit|);
      PassExtend(order, rock, missiles0, bodies, done, hit, next);
      ExtendOrder(order, rock, rocks0, snapshot);
      order := order + [rock];
      done := next;
      snapshot := snapshot - {rock};
    }
  }
}
