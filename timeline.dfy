/**
 * The data side of `displayTimeline` (script.js:280-330): the empty-list check, the filter on
 * `name` and `birthDate`, the stable sort by birth date, the "no dated actors" outcome and the
 * loop that gives each entry its side, years and age. The HTML it builds is not modelled.
 */
module Timeline {
  import opened Wrappers
  import opened Dates
  import opened Records

  datatype Side = Left | Right

  /** What one timeline item shows about an actor. */
  datatype TimelineEntry = TimelineEntry(
    actor: Actor,
    birthYear: int,
    deathYear: Option<int>,
    age: Option<int>,
    side: Side)

  /** The three things the timeline area can show. */
  datatype Timeline =
    | NoActors           // "Nenhum ator principal encontrado"
    | DatesUnavailable   // "Datas de nascimento indisponíveis"
    | Entries(entries: seq<TimelineEntry>)

  /** The filter `a => a.name && a.birthDate`. */
  predicate Placeable(a: Actor) {
    Truthy(a.name) && a.birthDate.Some?
  }

  /** `xs` can be obtained from `ys` by deleting elements, so it keeps their order. */
  predicate IsSubsequence(xs: seq<Actor>, ys: seq<Actor>)
    decreases |ys|
  {
    xs == [] ||
    (ys != [] && (IsSubsequence(xs, ys[1..]) || (xs[0] == ys[0] && IsSubsequence(xs[1..], ys[1..]))))
  }

  /** `actors.filter(a => a.name && a.birthDate)`: the qualifying actors, in input order. */
  function Placeables(actors: seq<Actor>): (r: seq<Actor>)
    ensures IsSubsequence(r, actors)
    ensures forall a :: a in r ==> Placeable(a)
    ensures forall a :: Placeable(a) ==> multiset(r)[a] == multiset(actors)[a]
    ensures r == [] <==> forall a :: a in actors ==> !Placeable(a)
  {
    if actors == [] then []
    else
      assert actors == [actors[0]] + actors[1..];
      var rest := Placeables(actors[1..]);
      if Placeable(actors[0]) then
        assert ([actors[0]] + rest)[1..] == rest;
        [actors[0]] + rest
      else rest
  }

  /** Deleting elements never adds any. */
  lemma {:induction false} SubsequenceMultiset(xs: seq<Actor>, ys: seq<Actor>)
    requires IsSubsequence(xs, ys)
    ensures multiset(xs) <= multiset(ys)
    decreases |ys|
  {
    if xs == [] {
    } else {
      assert ys == [ys[0]] + ys[1..];
      if IsSubsequence(xs, ys[1..]) {
        SubsequenceMultiset(xs, ys[1..]);
      } else {
        assert xs == [xs[0]] + xs[1..];
        SubsequenceMultiset(xs[1..], ys[1..]);
      }
    }
  }

  /**
   * The filter is the only order-keeping selection of exactly the qualifying actors: any
   * subsequence of `actors` that holds only qualifying actors, each as often as `actors` does,
   * is `Placeables(actors)`.
   */
  lemma {:induction false} FilterIsUnique(actors: seq<Actor>, r: seq<Actor>)
    requires IsSubsequence(r, actors)
    requires forall a :: a in r ==> Placeable(a)
    requires forall a :: Placeable(a) ==> multiset(r)[a] == multiset(actors)[a]
    ensures r == Placeables(actors)
    decreases |actors|
  {
    if actors == [] {
    } else {
      var x := actors[0];
      assert actors == [x] + actors[1..];
      if Placeable(x) {
        if !(r != [] && r[0] == x && IsSubsequence(r[1..], actors[1..])) {
          assert IsSubsequence(r, actors[1..]);
          SubsequenceMultiset(r, actors[1..]);
          assert false;
        }
        assert r == [x] + r[1..];
        forall a | Placeable(a) ensures multiset(r[1..])[a] == multiset(actors[1..])[a] {
        }
        FilterIsUnique(actors[1..], r[1..]);
      } else {
        if r != [] {
          assert Placeable(r[0]);
        }
        assert IsSubsequence(r, actors[1..]);
        forall a | Placeable(a) ensures multiset(r)[a] == multiset(actors[1..])[a] {
        }
        FilterIsUnique(actors[1..], r);
      }
    }
  }

  predicate AllDated(xs: seq<Actor>) {
    forall a :: a in xs ==> a.birthDate.Some?
  }

  function Birth(a: Actor): Date
    requires a.birthDate.Some?
  {
    a.birthDate.value
  }

  /** Ascending by birth date, as the comparator `new Date(a.birthDate) - new Date(b.birthDate)` orders. */
  predicate SortedByBirth(xs: seq<Actor>)
    requires AllDated(xs)
  {
    forall i, j :: 0 <= i < j < |xs| ==> NotAfter(Birth(xs[i]), Birth(xs[j]))
  }

  /** The actors of `xs` born on `d`, in the order of `xs`. */
  function BornOn(xs: seq<Actor>, d: Date): seq<Actor> {
    if xs == [] then []
    else (if xs[0].birthDate == Some(d) then [xs[0]] else []) + BornOn(xs[1..], d)
  }

  lemma {:induction false} NotAfterIsTransitive(a: Date, b: Date, c: Date)
    requires NotAfter(a, b) && NotAfter(b, c)
    ensures NotAfter(a, c)
  {
  }

  /** An actor born no later than everyone in a sorted list can go in front of it. */
  lemma {:induction false} ConsSorted(x: Actor, xs: seq<Actor>)
    requires x.birthDate.Some? && AllDated(xs) && SortedByBirth(xs)
    requires forall b :: b in xs ==> NotAfter(Birth(x), Birth(b))
    ensures AllDated([x] + xs) && SortedByBirth([x] + xs)
  {
    var r := [x] + xs;
    forall i, j | 0 <= i < j < |r| ensures NotAfter(Birth(r[i]), Birth(r[j])) {
      assert r[j] == xs[j - 1];
      if i > 0 { assert r[i] == xs[i - 1]; }
    }
  }

  /** Places `a` before the first actor of `xs` not born earlier than `a`. */
  function InsertByBirth(a: Actor, xs: seq<Actor>): (r: seq<Actor>)
    requires a.birthDate.Some? && AllDated(xs) && SortedByBirth(xs)
    ensures forall b :: b in r <==> b == a || b in xs
    ensures AllDated(r) && SortedByBirth(r)
    ensures multiset(r) == multiset(xs) + multiset{a}
  {
    if xs == [] || !Precedes(Birth(xs[0]), Birth(a)) then
      assert forall b :: b in xs ==> NotAfter(Birth(a), Birth(b)) by {
        forall b | b in xs ensures NotAfter(Birth(a), Birth(b)) {
          var j :| 0 <= j < |xs| && xs[j] == b;
          if j > 0 { NotAfterIsTransitive(Birth(a), Birth(xs[0]), Birth(b)); }
        }
      }
      ConsSorted(a, xs);
      [a] + xs
    else
      assert xs == [xs[0]] + xs[1..];
      var rest := InsertByBirth(a, xs[1..]);
      assert forall b :: b in rest ==> NotAfter(Birth(xs[0]), Birth(b)) by {
        forall b | b in rest ensures NotAfter(Birth(xs[0]), Birth(b)) {
          if b != a {
            var j :| 1 <= j < |xs| && xs[j] == b;
          }
        }
      }
      ConsSorted(xs[0], rest);
      [xs[0]] + rest
  }

  /**
   * `.sort((a, b) => new Date(a.birthDate) - new Date(b.birthDate))`: `Array.prototype.sort` is
   * stable, and `SortIsUnique` shows that any stable sort by birth date gives this sequence.
   */
  function SortByBirth(xs: seq<Actor>): (r: seq<Actor>)
    requires AllDated(xs)
    ensures AllDated(r) && SortedByBirth(r)
    ensures multiset(r) == multiset(xs)
  {
    if xs == [] then []
    else
      assert xs == [xs[0]] + xs[1..];
      InsertByBirth(xs[0], SortByBirth(xs[1..]))
  }

  lemma {:induction false} BornOnMembers(xs: seq<Actor>, d: Date, a: Actor)
    requires a in BornOn(xs, d)
    ensures a in xs && a.birthDate == Some(d)
  {
    if !(xs[0].birthDate == Some(d) && a == xs[0]) {
      BornOnMembers(xs[1..], d, a);
    }
  }

  lemma {:induction false} BornOnOfMember(xs: seq<Actor>, a: Actor)
    requires a in xs && a.birthDate.Some?
    ensures a in BornOn(xs, a.birthDate.value)
  {
    if a != xs[0] {
      BornOnOfMember(xs[1..], a);
    }
  }

  /** The first actor of a sorted list is born no later than any actor in it. */
  lemma {:induction false} SortedHeadIsEarliest(ys: seq<Actor>, b: Actor)
    requires AllDated(ys) && SortedByBirth(ys) && b in ys
    ensures NotAfter(Birth(ys[0]), Birth(b))
  {
    var k :| 0 <= k < |ys| && ys[k] == b;
    if k > 0 {
      assert NotAfter(Birth(ys[0]), Birth(ys[k]));
    }
  }

  /** Two sorted lists with the same actors per birth date, in the same order, start alike. */
  lemma {:induction false} SameHead(ys: seq<Actor>, zs: seq<Actor>)
    requires ys != [] && zs != []
    requires AllDated(ys) && SortedByBirth(ys) && AllDated(zs) && SortedByBirth(zs)
    requires forall d :: BornOn(ys, d) == BornOn(zs, d)
    ensures ys[0] == zs[0]
  {
    var y, z := ys[0], zs[0];
    BornOnOfMember(ys, y);
    BornOnOfMember(zs, z);
    BornOnMembers(zs, Birth(y), y);
    BornOnMembers(ys, Birth(z), z);
    SortedHeadIsEarliest(zs, y);
    SortedHeadIsEarliest(ys, z);
    assert Birth(y) == Birth(z);
    assert BornOn(ys, Birth(y))[0] == y;
    assert BornOn(zs, Birth(y))[0] == z;
  }

  /** Inserting `a` puts it ahead of every actor already there with the same birth date. */
  lemma {:induction false} InsertBornOn(a: Actor, xs: seq<Actor>, d: Date)
    requires a.birthDate.Some? && AllDated(xs) && SortedByBirth(xs)
    ensures BornOn(InsertByBirth(a, xs), d) == (if a.birthDate == Some(d) then [a] else []) + BornOn(xs, d)
  {
    if xs == [] || !Precedes(Birth(xs[0]), Birth(a)) {
      assert ([a] + xs)[1..] == xs;
    } else {
      var r := [xs[0]] + InsertByBirth(a, xs[1..]);
      assert r[1..] == InsertByBirth(a, xs[1..]);
      InsertBornOn(a, xs[1..], d);
      assert xs[0].birthDate != a.birthDate;
    }
  }

  /** The sort is stable: the actors born on any one day keep their input order. */
  lemma {:induction false} SortIsStable(xs: seq<Actor>, d: Date)
    requires AllDated(xs)
    ensures BornOn(SortByBirth(xs), d) == BornOn(xs, d)
  {
    if xs != [] {
      SortIsStable(xs[1..], d);
      InsertBornOn(xs[0], SortByBirth(xs[1..]), d);
    }
  }

  /**
   * A sequence sorted by birth date is determined by the order it keeps among the actors of each
   * birth date: two such sequences with the same actors per date in the same order are equal.
   */
  lemma {:induction false} SortIsUnique(ys: seq<Actor>, zs: seq<Actor>)
    requires AllDated(ys) && SortedByBirth(ys) && AllDated(zs) && SortedByBirth(zs)
    requires forall d :: BornOn(ys, d) == BornOn(zs, d)
    ensures ys == zs
  {
    if ys != [] && zs == [] {
      BornOnOfMember(ys, ys[0]);
    } else if ys == [] && zs != [] {
      BornOnOfMember(zs, zs[0]);
    } else if ys != [] {
      SameHead(ys, zs);
      var ys', zs' := ys[1..], zs[1..];
      forall d ensures BornOn(ys', d) == BornOn(zs', d) {
        var head := if ys[0].birthDate == Some(d) then [ys[0]] else [];
        assert BornOn(ys, d) == head + BornOn(ys', d);
        assert BornOn(zs, d) == head + BornOn(zs', d);
        assert BornOn(ys', d) == BornOn(ys, d)[|head|..];
        assert BornOn(zs', d) == BornOn(zs, d)[|head|..];
      }
      assert AllDated(ys') && SortedByBirth(ys') by {
        forall i, j | 0 <= i < j < |ys'| ensures NotAfter(Birth(ys'[i]), Birth(ys'[j])) {
          assert ys'[i] == ys[i + 1] && ys'[j] == ys[j + 1];
        }
      }
      assert AllDated(zs') && SortedByBirth(zs') by {
        forall i, j | 0 <= i < j < |zs'| ensures NotAfter(Birth(zs'[i]), Birth(zs'[j])) {
          assert zs'[i] == zs[i + 1] && zs'[j] == zs[j + 1];
        }
      }
      SortIsUnique(ys', zs');
      assert ys == [ys[0]] + ys' && zs == [zs[0]] + zs';
    }
  }

  /** Any sort by birth date that is stable returns exactly `SortByBirth(xs)`. */
  lemma {:induction false} StableSortIsSortByBirth(xs: seq<Actor>, ys: seq<Actor>)
    requires AllDated(xs) && AllDated(ys) && SortedByBirth(ys)
    requires forall d :: BornOn(ys, d) == BornOn(xs, d)
    ensures ys == SortByBirth(xs)
  {
    forall d ensures BornOn(ys, d) == BornOn(SortByBirth(xs), d) {
      SortIsStable(xs, d);
    }
    SortIsUnique(ys, SortByBirth(xs));
  }

  /** `i % 2 === 0 ? "left" : "right"`. */
  function SideAt(i: nat): (s: Side)
    ensures s == Left <==> i % 2 == 0
  {
    if i % 2 == 0 then Left else Right
  }

  /** The entry built for actor `a` at position `i` of the sorted list, at date `now`. */
  ghost predicate DescribesActorAt(e: TimelineEntry, a: Actor, i: nat, now: Date)
    requires a.birthDate.Some?
  {
    && e.actor == a
    && e.side == SideAt(i)
    && e.birthYear == Birth(a).year
    && e.deathYear == (if a.deathDate.Some? then Some(a.deathDate.value.year) else None)
    && e.age == CalculateAge(a.birthDate, a.deathDate, now)
  }

  /**
   * The `for (let i = 0; i < validActors.length; i++)` loop: one entry per actor, in order, with
   * sides alternating from the left and the age of `calculateAge(actor.birthDate, actor.deathDate)`.
   */
  method BuildEntries(sorted: seq<Actor>, now: Date) returns (entries: seq<TimelineEntry>)
    requires AllDated(sorted)
    ensures |entries| == |sorted|
    ensures forall i :: 0 <= i < |sorted| ==> DescribesActorAt(entries[i], sorted[i], i, now)
    ensures entries != [] ==> entries[0].side == Left
    ensures forall i :: 0 <= i < |entries| - 1 ==> entries[i].side != entries[i + 1].side
  {
    entries := [];
    var i := 0;
    while i < |sorted|
      invariant 0 <= i <= |sorted|
      invariant |entries| == i
      invariant forall k :: 0 <= k < i ==> DescribesActorAt(entries[k], sorted[k], k, now)
    {
      var actor := sorted[i];
      var birthYear := actor.birthDate.value.year;
      var deathYear := if actor.deathDate.Some? then Some(actor.deathDate.value.year) else None;
      var age := CalculateAge(actor.birthDate, actor.deathDate, now);
      var side := if i % 2 == 0 then Left else Right;
      entries := entries + [TimelineEntry(actor, birthYear, deathYear, age, side)];
      i := i + 1;
    }
  }

  function ActorsOf(entries: seq<TimelineEntry>): (r: seq<Actor>)
    ensures |r| == |entries| && forall i :: 0 <= i < |r| ==> r[i] == entries[i].actor
  {
    seq(|entries|, i requires 0 <= i < |entries| => entries[i].actor)
  }

  /** What `displayTimeline(actors)` shows, with `now` standing for the clock. */
  ghost predicate IsTimelineOf(t: Timeline, actors: seq<Actor>, now: Date) {
    && (t.NoActors? <==> actors == [])
    && (t.DatesUnavailable? <==> actors != [] && Placeables(actors) == [])
    && (t.Entries? ==>
          var sorted := SortByBirth(Placeables(actors));
          && |t.entries| == |sorted|
          && forall i :: 0 <= i < |sorted| ==> DescribesActorAt(t.entries[i], sorted[i], i, now))
  }

  /** `displayTimeline(actors)` without the HTML. */
  method DisplayTimeline(actors: seq<Actor>, now: Date) returns (t: Timeline)
    ensures IsTimelineOf(t, actors, now)
  {
    if |actors| == 0 {
      return NoActors;
    }
    var valid := SortByBirth(Placeables(actors));
    if |valid| == 0 {
      return DatesUnavailable;
    }
    var entries := BuildEntries(valid, now);
    t := Entries(entries);
  }

  /**
   * What a shown timeline promises: its actors are exactly those with a name and a birth date,
   * sorted by birth date, in input order among equal dates; sides alternate from the left; each
   * age is the number of completed years at the death date, or at `now` for the living.
   */
  lemma {:induction false} TimelineProperties(t: Timeline, actors: seq<Actor>, now: Date)
    requires IsTimelineOf(t, actors, now) && t.Entries?
    ensures t.entries != []
    ensures var shown := ActorsOf(t.entries);
      && AllDated(shown) && SortedByBirth(shown)
      && multiset(shown) == multiset(Placeables(actors))
      && (forall d :: BornOn(shown, d) == BornOn(Placeables(actors), d))
    ensures forall a :: a in ActorsOf(t.entries) <==> a in actors && Placeable(a)
    ensures t.entries[0].side == Left
    ensures forall i :: 0 <= i < |t.entries| ==> (t.entries[i].side == Left <==> i % 2 == 0)
    ensures forall i :: 0 <= i < |t.entries| ==>
      var a := t.entries[i].actor;
      t.entries[i].age.Some? && IsAgeAt(Birth(a), EndDate(a.deathDate, now), t.entries[i].age.value)
  {
    var sorted := SortByBirth(Placeables(actors));
    var shown := ActorsOf(t.entries);
    assert shown == sorted;
    forall d ensures BornOn(shown, d) == BornOn(Placeables(actors), d) {
      SortIsStable(Placeables(actors), d);
    }
    forall a ensures a in shown <==> a in actors && Placeable(a) {
      assert a in shown <==> multiset(shown)[a] > 0;
      assert a in actors <==> multiset(actors)[a] > 0;
      assert a in Placeables(actors) <==> multiset(Placeables(actors))[a] > 0;
    }
  }

  /**
   * Two dated actors, the older listed first: the timeline shows A on the left with birth year 1974
   * and B on the right with birth year 1990.
   */
  lemma TwoActorExample(a: Actor, b: Actor, t: Timeline, now: Date)
    requires a == Actor(Some("A"), Some(Date(1974, 2, 9)), None, None)
    requires b == Actor(Some("B"), Some(Date(1990, 1, 1)), None, None)
    requires IsTimelineOf(t, [a, b], now)
    ensures t.Entries? && |t.entries| == 2
    ensures t.entries[0].actor == a && t.entries[0].side == Left && t.entries[0].birthYear == 1974
    ensures t.entries[1].actor == b && t.entries[1].side == Right && t.entries[1].birthYear == 1990
  {
    OlderFirstIsKept(a, b);
    assert DescribesActorAt(t.entries[0], a, 0, now);
    assert DescribesActorAt(t.entries[1], b, 1, now);
  }

  /** Both example actors are placeable and already in birth order. */
  lemma OlderFirstIsKept(a: Actor, b: Actor)
    requires a == Actor(Some("A"), Some(Date(1974, 2, 9)), None, None)
    requires b == Actor(Some("B"), Some(Date(1990, 1, 1)), None, None)
    ensures SortByBirth(Placeables([a, b])) == [a, b]
  {
    var xs := [a, b];
    assert xs[1..] == [b] && [b][1..] == [];
    assert Placeables(xs) == xs;
    assert SortByBirth([b]) == InsertByBirth(b, []) == [b];
    assert InsertByBirth(a, [b]) == xs;
  }

  /** When no actor has a birth date, the timeline says the dates are unavailable rather than that there are no actors. */
  lemma {:induction false} UndatedActorsExample(t: Timeline, actors: seq<Actor>, now: Date)
    requires actors != [] && forall a :: a in actors ==> a.birthDate.None?
    requires IsTimelineOf(t, actors, now)
    ensures t == DatesUnavailable
  {
  }
}
