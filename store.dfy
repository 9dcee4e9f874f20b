/**
 * The collection transforms inside the handlers of src/App.tsx, as pure functions
 * over the garden list and the garden-id to plant-list map, and the invariant that
 * ties them together: distinct garden ids, one plant list per garden and no other,
 * a cached `plantCount` equal to the list's length, and plant ids distinct across
 * all gardens.
 */
module Store {
  import opened Types

  /** `gardens.map(g => g.id)`. */
  function GardenIds(gs: seq<Garden>): seq<int>
  {
    seq(|gs|, i requires 0 <= i < |gs| => gs[i].id)
  }

  /** Some garden in `gs` has id `id`. */
  predicate HasId(gs: seq<Garden>, id: int)
  {
    exists i | 0 <= i < |gs| :: gs[i].id == id
  }

  ghost predicate DistinctGardenIds(gs: seq<Garden>)
  {
    forall i, j :: 0 <= i < j < |gs| ==> gs[i].id != gs[j].id
  }

  /** The ids of every plant in every garden's list (`Object.values(plants).flat().map(p => p.id)`). */
  ghost function PlantIds(plants: PlantsMap): set<int>
  {
    set k, i | k in plants && 0 <= i < |plants[k]| :: plants[k][i].id
  }

  /** No two positions in the plant lists, in the same garden or in two, hold the same id. */
  ghost predicate DistinctPlantIds(plants: PlantsMap)
  {
    forall k1, i1, k2, i2 ::
      (k1 in plants && k2 in plants && 0 <= i1 < |plants[k1]| && 0 <= i2 < |plants[k2]| &&
       (k1 != k2 || i1 != i2)) ==> plants[k1][i1].id != plants[k2][i2].id
  }

  /** The store invariant: the cached counts and id uniqueness the collections are meant to keep. */
  ghost predicate Consistent(gs: seq<Garden>, plants: PlantsMap)
  {
    && DistinctGardenIds(gs)
    && (forall k :: k in plants <==> HasId(gs, k))
    && (forall i :: 0 <= i < |gs| ==> gs[i].id in plants && gs[i].plantCount == |plants[gs[i].id]|)
    && DistinctPlantIds(plants)
  }

  // ---------------------------------------------------------------------------
  // Id generation: `Math.max(...ids) + 1`

  /** The largest element of a non-empty list. */
  function MaxOf(xs: seq<int>): (m: int)
    requires xs != []
    ensures m in xs
    ensures forall x :: x in xs ==> x <= m
  {
    if |xs| == 1 then xs[0]
    else
      var rest := MaxOf(xs[1..]);
      assert forall x :: x in xs ==> x == xs[0] || x in xs[1..];
      if xs[0] >= rest then xs[0] else rest
  }

  /** `id` is one more than the largest of `ids`, or 1 when there are none. */
  ghost predicate IsNextId(ids: set<int>, id: int)
  {
    && (forall x :: x in ids ==> x < id)
    && (if ids == {} then id == 1 else id - 1 in ids)
  }

  /** A new id: greater than every existing one, hence distinct from all of them. */
  function NextId(ids: seq<int>): (id: int)
    ensures IsNextId(Elements(ids), id)
  {
    if ids == [] then 1
    else
      assert ids[0] in Elements(ids);
      MaxOf(ids) + 1
  }

  ghost function Elements(ids: seq<int>): set<int>
  {
    set x | x in ids
  }

  /** The result of `Math.max(...)` in JavaScript, where the maximum of nothing is minus infinity. */
  datatype JsNumber = Int(v: int) | MinusInfinity

  /** `Math.max(...ids) + 1` as the source writes it. */
  function JsMaxPlusOne(ids: seq<int>): (r: JsNumber)
    ensures r.Int? <==> ids != []
    ensures r.Int? ==> IsNextId(Elements(ids), r.v)
  {
    if ids == [] then MinusInfinity
    else
      assert MaxOf(ids) in Elements(ids);
      Int(MaxOf(ids) + 1)
  }

  /** With no existing ids the source's formula yields no integer id at all. */
  lemma {:induction false} JsMaxOfNothingIsNotAnId()
    ensures forall v: int :: JsMaxPlusOne([]) != Int(v)
  {
    assert JsMaxPlusOne([]) == MinusInfinity;
  }

  /** Wherever the source's formula yields an integer, `NextId` agrees with it. */
  lemma NextIdAgreesWithSource(ids: seq<int>)
    ensures JsMaxPlusOne(ids).Int? ==> JsMaxPlusOne(ids) == Int(NextId(ids))
  {
  }

  /** The set of ids a `NextId`-style rule may return is a single value. */
  lemma NextIdUnique(ids: set<int>, a: int, b: int)
    requires IsNextId(ids, a) && IsNextId(ids, b)
    ensures a == b
  {
    if ids != {} {
      assert a - 1 < b && b - 1 < a;
    }
  }

  /** The plant ids under the garden keys in `keys`. */
  ghost function PlantIdsUnder(plants: PlantsMap, keys: set<int>): set<int>
  {
    set k, i | k in keys && k in plants && 0 <= i < |plants[k]| :: plants[k][i].id
  }

  function PlantIdSeq(ps: seq<Plant>): seq<int>
  {
    seq(|ps|, i requires 0 <= i < |ps| => ps[i].id)
  }

  lemma PlantIdsUnderAdd(plants: PlantsMap, done: set<int>, k: int)
    requires k in plants
    ensures PlantIdsUnder(plants, done + {k})
         == PlantIdsUnder(plants, done) + Elements(PlantIdSeq(plants[k]))
  {
    var lhs := PlantIdsUnder(plants, done + {k});
    var rhs := PlantIdsUnder(plants, done) + Elements(PlantIdSeq(plants[k]));
    forall x | x in lhs ensures x in rhs {
      var k', i :| k' in done + {k} && k' in plants && 0 <= i < |plants[k']| && plants[k'][i].id == x;
      if k' != k {
        assert x in PlantIdsUnder(plants, done);
      } else {
        assert PlantIdSeq(plants[k])[i] == x;
      }
    }
    forall x | x in rhs ensures x in lhs {
      if x in PlantIdsUnder(plants, done) {
        var k', i :| k' in done && k' in plants && 0 <= i < |plants[k']| && plants[k'][i].id == x;
        assert plants[k'][i].id in lhs;
      } else {
        var i :| 0 <= i < |plants[k]| && PlantIdSeq(plants[k])[i] == x;
        assert plants[k][i].id in lhs;
      }
    }
  }

  /**
   * `Math.max(...Object.values(plants).flat().map(p => p.id)) + 1`, visiting the plant
   * lists one garden at a time, with 1 when there is no plant at all.
   */
  method NextPlantId(plants: PlantsMap) returns (id: int)
    ensures IsNextId(PlantIds(plants), id)
  {
    var best: Option<int> := None;
    var todo: set<int> := plants.Keys;
    ghost var done: set<int> := {};
    while todo != {}
      invariant todo !! done && todo + done == plants.Keys
      invariant best.None? ==> PlantIdsUnder(plants, done) == {}
      invariant best.Some? ==> best.value in PlantIdsUnder(plants, done)
      invariant forall x :: x in PlantIdsUnder(plants, done) ==> best.Some? && x <= best.value
      decreases todo
    {
      if forall y :: y !in todo { assert false; }
      var k :| k in todo;
      PlantIdsUnderAdd(plants, done, k);
      var ids := PlantIdSeq(plants[k]);
      if ids != [] {
        var m := MaxOf(ids);
        if best.None? || best.value < m {
          best := Some(m);
        }
      }
      todo := todo - {k};
      done := done + {k};
    }
    assert PlantIdsUnder(plants, done) == PlantIds(plants);
    id := if best.None? then 1 else best.value + 1;
  }

  // ---------------------------------------------------------------------------
  // Garden list transforms

  /** `gardens.filter(g => g.id !== id)`. */
  function WithoutGarden(gs: seq<Garden>, id: int): (r: seq<Garden>)
    ensures forall g :: g in r <==> g in gs && g.id != id
    ensures !HasId(r, id)
    ensures !HasId(gs, id) ==> r == gs
    ensures |r| <= |gs|
  {
    if gs == [] then []
    else
      var rest := WithoutGarden(gs[1..], id);
      assert forall g :: g in gs <==> g == gs[0] || g in gs[1..];
      assert !HasId(gs, id) ==> !HasId(gs[1..], id) && gs == [gs[0]] + gs[1..];
      if gs[0].id == id then rest else [gs[0]] + rest
  }

  /** Filtering keeps the relative order: it distributes over concatenation. */
  lemma {:induction false} WithoutGardenKeepsOrder(a: seq<Garden>, b: seq<Garden>, id: int)
    ensures WithoutGarden(a + b, id) == WithoutGarden(a, id) + WithoutGarden(b, id)
  {
    if a != [] {
      assert (a + b)[1..] == a[1..] + b;
      WithoutGardenKeepsOrder(a[1..], b, id);
    } else {
      assert a + b == b;
    }
  }

  lemma {:induction false} WithoutGardenDistinct(gs: seq<Garden>, id: int)
    requires DistinctGardenIds(gs)
    ensures DistinctGardenIds(WithoutGarden(gs, id))
  {
    if gs != [] {
      assert DistinctGardenIds(gs[1..]) by {
        forall x, y | 0 <= x < y < |gs[1..]| ensures gs[1..][x].id != gs[1..][y].id {
          assert gs[1..][x] == gs[x + 1] && gs[1..][y] == gs[y + 1];
        }
      }
      WithoutGardenDistinct(gs[1..], id);
      var rest := WithoutGarden(gs[1..], id);
      if gs[0].id != id {
        forall y | 0 <= y < |rest| ensures rest[y].id != gs[0].id {
          assert rest[y] in rest;
          var j :| 0 <= j < |gs[1..]| && gs[1..][j] == rest[y];
          assert gs[j + 1] == rest[y];
        }
        ConsGardenKeepsDistinct(gs[0], rest);
        assert WithoutGarden(gs, id) == [gs[0]] + rest;
      }
    }
  }

  /** Putting in front of a list with distinct garden ids a garden whose id it lacks keeps them distinct. */
  lemma ConsGardenKeepsDistinct(g: Garden, rest: seq<Garden>)
    requires DistinctGardenIds(rest)
    requires forall y :: 0 <= y < |rest| ==> rest[y].id != g.id
    ensures DistinctGardenIds([g] + rest)
  {
    var r := [g] + rest;
    forall x, y | 0 <= x < y < |r| ensures r[x].id != r[y].id {
      assert r[y] == rest[y - 1];
      if x > 0 {
        assert r[x] == rest[x - 1];
      }
    }
  }

  /** `gardens.map(g => g.id === u.id ? u : g)`. */
  function ReplaceGarden(gs: seq<Garden>, u: Garden): (r: seq<Garden>)
    ensures |r| == |gs| && GardenIds(r) == GardenIds(gs)
    ensures forall i :: 0 <= i < |gs| && gs[i].id != u.id ==> r[i] == gs[i]
    ensures forall i :: 0 <= i < |gs| && gs[i].id == u.id ==> r[i] == u
  {
    seq(|gs|, i requires 0 <= i < |gs| => if gs[i].id == u.id then u else gs[i])
  }

  /** `gardens.map(g => g.id === id ? { ...g, plantCount: g.plantCount + delta } : g)`. */
  function BumpCount(gs: seq<Garden>, id: int, delta: int): (r: seq<Garden>)
    ensures |r| == |gs| && GardenIds(r) == GardenIds(gs)
    ensures forall i :: 0 <= i < |gs| && gs[i].id != id ==> r[i] == gs[i]
    ensures forall i :: 0 <= i < |gs| && gs[i].id == id ==>
      r[i] == gs[i].(plantCount := gs[i].plantCount + delta)
  {
    seq(|gs|, i requires 0 <= i < |gs| =>
      if gs[i].id == id then gs[i].(plantCount := gs[i].plantCount + delta) else gs[i])
  }

  /** `gardens.find(g => g.id === id)`: the first garden with that id. */
  function FindGarden(gs: seq<Garden>, id: int): (r: Option<Garden>)
    ensures r.Some? <==> HasId(gs, id)
    ensures r.Some? ==> exists i :: 0 <= i < |gs| && gs[i] == r.value && r.value.id == id &&
                                   forall j :: 0 <= j < i ==> gs[j].id != id
  {
    if gs == [] then None
    else if gs[0].id == id then Some(gs[0])
    else
      var r := FindGarden(gs[1..], id);
      assert HasId(gs, id) ==> HasId(gs[1..], id) by {
        if HasId(gs, id) {
          var i :| 0 <= i < |gs| && gs[i].id == id;
          assert gs[1..][i - 1].id == id;
        }
      }
      assert r.Some? ==> exists i :: 0 <= i < |gs| && gs[i] == r.value && r.value.id == id &&
                                    forall j :: 0 <= j < i ==> gs[j].id != id by {
        if r.Some? {
          var i :| 0 <= i < |gs[1..]| && gs[1..][i] == r.value && r.value.id == id &&
                   forall j :: 0 <= j < i ==> gs[1..][j].id != id;
          assert gs[i + 1] == r.value;
          forall j | 0 <= j < i + 1 ensures gs[j].id != id {
            if j > 0 { assert gs[j] == gs[1..][j - 1]; }
          }
        }
      }
      r
  }

  /** In a list with distinct ids the garden found is the only one with that id. */
  lemma FindGardenInDistinct(gs: seq<Garden>, i: int)
    requires DistinctGardenIds(gs) && 0 <= i < |gs|
    ensures FindGarden(gs, gs[i].id) == Some(gs[i])
  {
    var r := FindGarden(gs, gs[i].id);
    var k :| 0 <= k < |gs| && gs[k] == r.value && r.value.id == gs[i].id &&
             forall j :: 0 <= j < k ==> gs[j].id != gs[i].id;
    assert k == i;
  }

  // ---------------------------------------------------------------------------
  // Plant list transforms

  /** How many plants in `ps` carry id `id`. */
  function Occurrences(ps: seq<Plant>, id: int): nat
  {
    if ps == [] then 0 else (if ps[0].id == id then 1 else 0) + Occurrences(ps[1..], id)
  }

  /** `list.filter(p => p.id !== id)`. */
  function WithoutPlant(ps: seq<Plant>, id: int): (r: seq<Plant>)
    ensures forall p :: p in r <==> p in ps && p.id != id
    ensures |r| == |ps| - Occurrences(ps, id)
    ensures Occurrences(r, id) == 0
  {
    if ps == [] then []
    else
      var rest := WithoutPlant(ps[1..], id);
      assert forall p :: p in ps <==> p == ps[0] || p in ps[1..];
      if ps[0].id == id then rest
      else
        assert ([ps[0]] + rest)[1..] == rest;
        [ps[0]] + rest
  }

  /** Filtering keeps the relative order of the plants: it distributes over concatenation. */
  lemma {:induction false} WithoutPlantKeepsOrder(a: seq<Plant>, b: seq<Plant>, id: int)
    ensures WithoutPlant(a + b, id) == WithoutPlant(a, id) + WithoutPlant(b, id)
  {
    if a != [] {
      assert (a + b)[1..] == a[1..] + b;
      WithoutPlantKeepsOrder(a[1..], b, id);
    } else {
      assert a + b == b;
    }
  }

  /** Every plant kept by the filter is one of the original list's plants, without the id. */
  lemma {:induction false} SurvivorComesFromList(ps: seq<Plant>, id: int, i: int)
    requires 0 <= i < |WithoutPlant(ps, id)|
    ensures exists j :: 0 <= j < |ps| && ps[j] == WithoutPlant(ps, id)[i] && ps[j].id != id
  {
    var r := WithoutPlant(ps, id);
    assert r[i] in r;
    var j :| 0 <= j < |ps| && ps[j] == r[i];
  }

  /** In a list whose ids are distinct, an id that occurs at all occurs exactly once. */
  lemma {:induction false} OccursOnce(ps: seq<Plant>, i: int)
    requires 0 <= i < |ps|
    requires forall a, b :: 0 <= a < b < |ps| ==> ps[a].id != ps[b].id
    ensures Occurrences(ps, ps[i].id) == 1
  {
    if i == 0 {
      NoOccurrences(ps[1..], ps[0].id);
    } else {
      OccursOnce(ps[1..], i - 1);
      assert ps[1..][i - 1] == ps[i];
    }
  }

  lemma {:induction false} NoOccurrences(ps: seq<Plant>, id: int)
    requires forall a :: 0 <= a < |ps| ==> ps[a].id != id
    ensures Occurrences(ps, id) == 0
  {
    if ps != [] {
      NoOccurrences(ps[1..], id);
    }
  }

  /** The image used when the add-plant form leaves it empty. */
  const DefaultImage := "https://images.unsplash.com/photo-1466781783364-36c955e42a7f?w=400&h=400&fit=crop"

  /** The plant record built by add-plant: the form's fields plus fixed care defaults. */
  function NewPlant(id: int, form: NewPlantForm): (p: Plant)
    ensures p.id == id && p.name == form.name && p.plantType == form.plantType
    ensures p.image != "" && (form.image != "" ==> p.image == form.image)
    ensures form.image == "" ==> p.image == DefaultImage
    ensures p.temp == 72 && p.humidity == 60 && p.health == Good
    ensures p.light == "Medium" && p.waterLevel == "Good" && p.lastWatered == "Just now"
  {
    Plant(id, form.name, form.plantType, 72, 60, "Medium", "Good", "Just now", Good,
          if form.image != "" then form.image else DefaultImage)
  }

  /** `{ ...plants, [id]: [...(plants[id] || []), p] }`. */
  function AppendPlant(plants: PlantsMap, id: int, p: Plant): (r: PlantsMap)
    ensures r.Keys == plants.Keys + {id}
    ensures r[id] == (if id in plants then plants[id] else []) + [p]
    ensures forall k :: k in plants && k != id ==> r[k] == plants[k]
  {
    plants[id := (if id in plants then plants[id] else []) + [p]]
  }

  // ---------------------------------------------------------------------------
  // The invariant under each transform

  /** add-garden keeps the store consistent: its id is new and it starts with an empty list. */
  lemma AddGardenKeepsConsistent(gs: seq<Garden>, plants: PlantsMap, name: string)
    requires Consistent(gs, plants)
    ensures var g := Garden(NextId(GardenIds(gs)), name, 0, None);
            Consistent(gs + [g], plants[g.id := []])
  {
    var id := NextId(GardenIds(gs));
    var g := Garden(id, name, 0, None);
    var gs' := gs + [g];
    var plants': PlantsMap := plants[id := []];
    forall i | 0 <= i < |gs| ensures gs[i].id != id {
      assert GardenIds(gs)[i] == gs[i].id;
      assert gs[i].id in Elements(GardenIds(gs));
    }
    assert id !in plants;
    forall k ensures k in plants' <==> HasId(gs', k) {
      if HasId(gs, k) {
        var i :| 0 <= i < |gs| && gs[i].id == k;
        assert gs'[i].id == k;
      }
      if HasId(gs', k) && k != id {
        var i :| 0 <= i < |gs'| && gs'[i].id == k;
        assert gs[i].id == k;
      }
      assert gs'[|gs|].id == id;
    }
  }

  /** delete-garden (confirmed) keeps the store consistent. */
  lemma DeleteGardenKeepsConsistent(gs: seq<Garden>, plants: PlantsMap, id: int)
    requires Consistent(gs, plants)
    ensures Consistent(WithoutGarden(gs, id), plants - {id})
  {
    var gs' := WithoutGarden(gs, id);
    var plants': PlantsMap := plants - {id};
    WithoutGardenDistinct(gs, id);
    forall i | 0 <= i < |gs'|
      ensures gs'[i].id in plants' && gs'[i].plantCount == |plants'[gs'[i].id]|
    {
      assert gs'[i] in gs;
    }
    forall k ensures k in plants' <==> HasId(gs', k) {
      if k in plants' {
        var i :| 0 <= i < |gs| && gs[i].id == k;
        assert gs[i] in gs';
        var j :| 0 <= j < |gs'| && gs'[j] == gs[i];
      }
      if HasId(gs', k) {
        var i :| 0 <= i < |gs'| && gs'[i].id == k;
        assert gs'[i] in gs;
      }
    }
  }

  /** A transform that keeps every garden's id in place keeps the set of ids and their distinctness. */
  lemma SameGardenIds(gs: seq<Garden>, gs': seq<Garden>)
    requires GardenIds(gs') == GardenIds(gs)
    ensures forall k :: HasId(gs', k) <==> HasId(gs, k)
    ensures DistinctGardenIds(gs) ==> DistinctGardenIds(gs')
  {
    forall k ensures HasId(gs', k) <==> HasId(gs, k) {
      if HasId(gs, k) {
        var i :| 0 <= i < |gs| && gs[i].id == k;
        assert GardenIds(gs')[i] == k;
      }
      if HasId(gs', k) {
        var i :| 0 <= i < |gs'| && gs'[i].id == k;
        assert GardenIds(gs)[i] == k;
      }
    }
    if DistinctGardenIds(gs) {
      forall i, j | 0 <= i < j < |gs'| ensures gs'[i].id != gs'[j].id {
        assert GardenIds(gs')[i] == GardenIds(gs)[i] && GardenIds(gs')[j] == GardenIds(gs)[j];
      }
    }
  }

  /** update-garden keeps the store consistent when it does not touch the cached count. */
  lemma UpdateGardenKeepsConsistent(gs: seq<Garden>, plants: PlantsMap, u: Garden)
    requires Consistent(gs, plants)
    requires forall i :: 0 <= i < |gs| && gs[i].id == u.id ==> gs[i].plantCount == u.plantCount
    ensures Consistent(ReplaceGarden(gs, u), plants)
  {
    var gs' := ReplaceGarden(gs, u);
    SameGardenIds(gs, gs');
    forall i | 0 <= i < |gs'| ensures gs'[i].id in plants && gs'[i].plantCount == |plants[gs'[i].id]| {
      assert GardenIds(gs')[i] == GardenIds(gs)[i];
    }
  }

  /** add-plant to an existing garden, with a fresh id, keeps the store consistent. */
  lemma AddPlantKeepsConsistent(gs: seq<Garden>, plants: PlantsMap, id: int, p: Plant)
    requires Consistent(gs, plants) && HasId(gs, id)
    requires p.id !in PlantIds(plants)
    ensures Consistent(BumpCount(gs, id, 1), AppendPlant(plants, id, p))
  {
    var gs' := BumpCount(gs, id, 1);
    var plants': PlantsMap := AppendPlant(plants, id, p);
    assert id in plants;
    SameGardenIds(gs, gs');
    forall k1: int, i1: int, k2: int, i2: int |
      k1 in plants' && k2 in plants' && 0 <= i1 < |plants'[k1]| && 0 <= i2 < |plants'[k2]| &&
      (k1 != k2 || i1 != i2)
      ensures plants'[k1][i1].id != plants'[k2][i2].id
    {
      var n := |plants[id]|;
      if k1 == id && i1 == n {
        assert plants'[k2][i2].id in PlantIds(plants) by {
          assert plants'[k2][i2] == plants[k2][i2];
        }
      } else if k2 == id && i2 == n {
        assert plants'[k1][i1].id in PlantIds(plants) by {
          assert plants'[k1][i1] == plants[k1][i1];
        }
      } else {
        assert plants'[k1][i1] == plants[k1][i1] && plants'[k2][i2] == plants[k2][i2];
      }
    }
  }

  /** delete-plant keeps the store consistent when the id occurs exactly once in the list. */
  lemma DeletePlantKeepsConsistent(gs: seq<Garden>, plants: PlantsMap, id: int, pid: int)
    requires Consistent(gs, plants) && id in plants
    requires Occurrences(plants[id], pid) == 1
    ensures Consistent(BumpCount(gs, id, -1), plants[id := WithoutPlant(plants[id], pid)])
  {
    var gs' := BumpCount(gs, id, -1);
    var plants': PlantsMap := plants[id := WithoutPlant(plants[id], pid)];
    SameGardenIds(gs, gs');
    FilteredDistinct(plants, id, pid);
    forall i | 0 <= i < |gs'| ensures gs'[i].id in plants' && gs'[i].plantCount == |plants'[gs'[i].id]| {
      assert GardenIds(gs')[i] == GardenIds(gs)[i];
    }
  }

  lemma FilteredDistinct(plants: PlantsMap, id: int, pid: int)
    requires DistinctPlantIds(plants) && id in plants
    ensures DistinctPlantIds(plants[id := WithoutPlant(plants[id], pid)])
  {
    var plants': PlantsMap := plants[id := WithoutPlant(plants[id], pid)];
    forall k1: int, i1: int, k2: int, i2: int |
      k1 in plants' && k2 in plants' && 0 <= i1 < |plants'[k1]| && 0 <= i2 < |plants'[k2]| &&
      (k1 != k2 || i1 != i2)
      ensures plants'[k1][i1].id != plants'[k2][i2].id
    {
      var j1 := Origin(plants, id, pid, k1, i1);
      var j2 := Origin(plants, id, pid, k2, i2);
      if k1 == k2 && k1 == id {
        assert DistinctIds(plants[id]) by {
          forall x, y | 0 <= x < y < |plants[id]| ensures plants[id][x].id != plants[id][y].id {
            assert (id != id || x != y);
          }
        }
        FilterKeepsDistinct(plants[id], pid);
        if i1 < i2 {
          assert plants'[k1][i1].id != plants'[k2][i2].id;
        } else {
          assert plants'[k2][i2].id != plants'[k1][i1].id;
        }
      }
    }
  }

  /** The position in the old list of the plant now at position `i` of garden `k`. */
  lemma Origin(plants: PlantsMap, id: int, pid: int, k: int, i: int) returns (j: int)
    requires id in plants && k in plants
    requires 0 <= i < |plants[id := WithoutPlant(plants[id], pid)][k]|
    ensures 0 <= j < |plants[k]|
    ensures plants[k][j] == plants[id := WithoutPlant(plants[id], pid)][k][i]
    ensures k != id ==> j == i
  {
    if k == id {
      SurvivorComesFromList(plants[id], pid, i);
      j :| 0 <= j < |plants[id]| && plants[id][j] == WithoutPlant(plants[id], pid)[i] &&
           plants[id][j].id != pid;
    } else {
      j := i;
    }
  }

  /** No two plants of one list share an id. */
  ghost predicate DistinctIds(ps: seq<Plant>)
  {
    forall x, y :: 0 <= x < y < |ps| ==> ps[x].id != ps[y].id
  }

  /** Filtering a list whose ids are distinct leaves a list whose ids are distinct. */
  lemma {:induction false} FilterKeepsDistinct(ps: seq<Plant>, pid: int)
    requires DistinctIds(ps)
    ensures DistinctIds(WithoutPlant(ps, pid))
  {
    if ps != [] {
      var rest := WithoutPlant(ps[1..], pid);
      assert DistinctIds(ps[1..]) by {
        forall x, y | 0 <= x < y < |ps[1..]| ensures ps[1..][x].id != ps[1..][y].id {
          assert ps[1..][x] == ps[x + 1] && ps[1..][y] == ps[y + 1];
        }
      }
      FilterKeepsDistinct(ps[1..], pid);
      if ps[0].id != pid {
        forall y | 0 <= y < |rest| ensures rest[y].id != ps[0].id {
          SurvivorComesFromList(ps[1..], pid, y);
          var j :| 0 <= j < |ps[1..]| && ps[1..][j] == rest[y] && ps[1..][j].id != pid;
          assert ps[j + 1] == rest[y];
        }
        ConsKeepsDistinct(ps[0], rest);
        assert WithoutPlant(ps, pid) == [ps[0]] + rest;
      }
    }
  }

  /** Putting in front of a list with distinct ids a plant whose id it lacks keeps the ids distinct. */
  lemma ConsKeepsDistinct(p: Plant, rest: seq<Plant>)
    requires DistinctIds(rest)
    requires forall y :: 0 <= y < |rest| ==> rest[y].id != p.id
    ensures DistinctIds([p] + rest)
  {
    var r := [p] + rest;
    forall x, y | 0 <= x < y < |r| ensures r[x].id != r[y].id {
      assert r[y] == rest[y - 1];
      if x > 0 {
        assert r[x] == rest[x - 1];
      }
    }
  }

  /**
   * delete-plant decrements the cached count even when no plant had the id, so
   * from a consistent store a delete of an absent id breaks the invariant.
   */
  lemma DeleteAbsentPlantBreaksCount(gs: seq<Garden>, plants: PlantsMap, id: int, pid: int)
    requires Consistent(gs, plants) && HasId(gs, id)
    requires Occurrences(plants[id], pid) == 0
    ensures !Consistent(BumpCount(gs, id, -1), plants[id := WithoutPlant(plants[id], pid)])
  {
    var i :| 0 <= i < |gs| && gs[i].id == id;
    var gs' := BumpCount(gs, id, -1);
    assert gs'[i].plantCount == |plants[id]| - 1;
  }
}
