/**
 * The root component's state (src/App.tsx): the five state cells, the handlers
 * that overwrite them, and the screen they select. `window.confirm` is a boolean
 * argument of the two delete handlers.
 */
module App {
  import opened Types
  import opened Store
  import MockData

  /** The screen the root component renders. */
  datatype Screen =
    | LoginScreen
    | GardenList(gardens: seq<Garden>)
    | PlantList(garden: Garden, plants: seq<Plant>)
    | PlantDetail(plant: Plant)

  class AppState {
    var isLoggedIn: bool
    var selectedGarden: Option<Garden>
    var selectedPlant: Option<Plant>
    var gardens: seq<Garden>
    var plants: PlantsMap

    /** Every session starts logged out, on the sample data. */
    constructor ()
      ensures !isLoggedIn && selectedGarden == None && selectedPlant == None
      ensures gardens == MockData.MockGardens && plants == MockData.MockPlants
      ensures Consistent(gardens, plants) && ShownPlantListed()
    {
      isLoggedIn := false;
      selectedGarden := None;
      selectedPlant := None;
      gardens := MockData.MockGardens;
      plants := MockData.MockPlants;
      MockData.MockConsistent();
    }

    /**
     * The plant on the detail screen is one of the selected garden's listed plants.
     * The plant list screen only offers those, so every handler keeps this.
     */
    ghost predicate ShownPlantListed()
      reads this
    {
      selectedPlant.Some? ==>
        selectedGarden.Some? && selectedGarden.value.id in plants &&
        selectedPlant.value in plants[selectedGarden.value.id]
    }

    /** The render decision: login, then garden list, then plant list, then plant detail. */
    function View(): (s: Screen)
      reads this
      ensures s == LoginScreen <==> !isLoggedIn
      ensures s.GardenList? <==> isLoggedIn && selectedGarden.None?
      ensures s.GardenList? ==> s.gardens == gardens
      ensures s.PlantList? <==> isLoggedIn && selectedGarden.Some? && selectedPlant.None?
      ensures s.PlantList? ==> s.garden == selectedGarden.value &&
                               s.plants == (if s.garden.id in plants then plants[s.garden.id] else [])
      ensures s.PlantDetail? <==> isLoggedIn && selectedGarden.Some? && selectedPlant.Some?
      ensures s.PlantDetail? ==> s.plant == selectedPlant.value
    {
      if !isLoggedIn then LoginScreen
      else if selectedGarden.None? then GardenList(gardens)
      else if selectedPlant.None? then
        PlantList(selectedGarden.value,
                  if selectedGarden.value.id in plants then plants[selectedGarden.value.id] else [])
      else PlantDetail(selectedPlant.value)
    }

    method Login()
      modifies this
      ensures isLoggedIn
      ensures selectedGarden == old(selectedGarden) && selectedPlant == old(selectedPlant)
      ensures gardens == old(gardens) && plants == old(plants)
      ensures old(ShownPlantListed()) ==> ShownPlantListed()
    {
      isLoggedIn := true;
    }

    /** Logging out clears both selections and keeps the collections. */
    method Logout()
      modifies this
      ensures !isLoggedIn && selectedGarden == None && selectedPlant == None
      ensures gardens == old(gardens) && plants == old(plants)
      ensures View() == LoginScreen && ShownPlantListed()
    {
      isLoggedIn := false;
      selectedGarden := None;
      selectedPlant := None;
    }

    /** Selecting a garden clears the selected plant. */
    method SelectGarden(g: Garden)
      modifies this
      ensures selectedGarden == Some(g) && selectedPlant == None && ShownPlantListed()
      ensures isLoggedIn == old(isLoggedIn) && gardens == old(gardens) && plants == old(plants)
    {
      selectedGarden := Some(g);
      selectedPlant := None;
    }

    /**
     * The plant list hands its `onSelectPlant` straight to the selected-plant cell;
     * a plant picked from the list on show keeps the shown plant listed.
     */
    method SelectPlant(p: Plant)
      modifies this
      ensures selectedPlant == Some(p)
      ensures isLoggedIn == old(isLoggedIn) && selectedGarden == old(selectedGarden)
      ensures gardens == old(gardens) && plants == old(plants)
      ensures old(View()).PlantList? && p in old(View()).plants ==> ShownPlantListed()
    {
      selectedPlant := Some(p);
    }

    /** Back clears the plant if one is selected, else the garden if one is, else does nothing. */
    method Back()
      modifies this
      ensures old(selectedPlant).Some? ==>
                selectedPlant == None && selectedGarden == old(selectedGarden)
      ensures old(selectedPlant).None? ==> selectedPlant == None && selectedGarden == None
      ensures isLoggedIn == old(isLoggedIn) && gardens == old(gardens) && plants == old(plants)
      ensures old(View()).PlantDetail? && old(selectedGarden).Some? ==> View().PlantList?
      ensures old(View()).PlantList? ==> View().GardenList?
      ensures ShownPlantListed()
    {
      if selectedPlant.Some? {
        selectedPlant := None;
      } else if selectedGarden.Some? {
        selectedGarden := None;
      }
    }

    /** A new garden with the next id, no plants and no sensor, appended last with an empty list. */
    method AddGarden(name: string)
      modifies this
      ensures var g := Garden(NextId(GardenIds(old(gardens))), name, 0, None);
              gardens == old(gardens) + [g] && plants == old(plants)[g.id := []]
      ensures forall g :: g in old(gardens) ==> g.id < gardens[|gardens| - 1].id
      ensures old(gardens) != [] ==> JsMaxPlusOne(GardenIds(old(gardens))) == Int(gardens[|gardens| - 1].id)
      ensures Consistent(old(gardens), old(plants)) ==> Consistent(gardens, plants)
      ensures Consistent(old(gardens), old(plants)) && old(ShownPlantListed()) ==> ShownPlantListed()
      ensures isLoggedIn == old(isLoggedIn)
      ensures selectedGarden == old(selectedGarden) && selectedPlant == old(selectedPlant)
    {
      var id := NextId(GardenIds(gardens));
      NextIdAgreesWithSource(GardenIds(gardens));
      if Consistent(gardens, plants) && selectedGarden.Some? && selectedGarden.value.id in plants {
        var i :| 0 <= i < |gardens| && gardens[i].id == selectedGarden.value.id;
        assert GardenIds(gardens)[i] in Elements(GardenIds(gardens));
      }
      var g := Garden(id, name, 0, None);
      if Consistent(gardens, plants) {
        AddGardenKeepsConsistent(gardens, plants, name);
      }
      forall h | h in gardens ensures h.id < id {
        var i :| 0 <= i < |gardens| && gardens[i] == h;
        assert GardenIds(gardens)[i] == h.id;
        assert h.id in Elements(GardenIds(gardens));
      }
      gardens := gardens + [g];
      plants := plants[id := []];
    }

    /** Declined: nothing changes. Confirmed: every garden with the id and its plant list go. */
    method DeleteGarden(id: int, confirmed: bool)
      modifies this
      ensures !confirmed ==> gardens == old(gardens) && plants == old(plants)
      ensures confirmed ==> gardens == WithoutGarden(old(gardens), id) && plants == old(plants) - {id}
      ensures Consistent(old(gardens), old(plants)) ==> Consistent(gardens, plants)
      ensures old(ShownPlantListed()) && (old(selectedPlant).Some? ==> old(selectedGarden).value.id != id) ==>
                ShownPlantListed()
      ensures isLoggedIn == old(isLoggedIn)
      ensures selectedGarden == old(selectedGarden) && selectedPlant == old(selectedPlant)
    {
      if confirmed {
        if Consistent(gardens, plants) {
          DeleteGardenKeepsConsistent(gardens, plants, id);
        }
        gardens := WithoutGarden(gardens, id);
        plants := plants - {id};
      }
    }

    /** Replace by id, keep the order, refresh the selection if it is that garden. */
    method UpdateGarden(u: Garden)
      modifies this
      ensures gardens == ReplaceGarden(old(gardens), u) && plants == old(plants)
      ensures selectedGarden ==
        if old(selectedGarden).Some? && old(selectedGarden).value.id == u.id then Some(u)
        else old(selectedGarden)
      ensures Consistent(old(gardens), old(plants)) &&
              (forall i :: 0 <= i < |old(gardens)| && old(gardens)[i].id == u.id ==>
                             old(gardens)[i].plantCount == u.plantCount)
              ==> Consistent(gardens, plants)
      ensures old(ShownPlantListed()) ==> ShownPlantListed()
      ensures isLoggedIn == old(isLoggedIn) && selectedPlant == old(selectedPlant)
    {
      if Consistent(gardens, plants) &&
         (forall i :: 0 <= i < |gardens| && gardens[i].id == u.id ==> gardens[i].plantCount == u.plantCount)
      {
        UpdateGardenKeepsConsistent(gardens, plants, u);
      }
      gardens := ReplaceGarden(gardens, u);
      if selectedGarden.Some? && selectedGarden.value.id == u.id {
        selectedGarden := Some(u);
      }
    }

    /**
     * With no garden selected nothing happens. Otherwise a plant with the next id
     * over all gardens and the default care fields is appended to the selected
     * garden's list (created if absent), that garden's count goes up by one, and the
     * selection is re-read from the updated list.
     */
    method AddPlant(form: NewPlantForm)
      modifies this
      ensures old(selectedGarden).None? ==>
                gardens == old(gardens) && plants == old(plants) && selectedGarden == None
      ensures old(selectedGarden).Some? ==>
                var gid := old(selectedGarden).value.id;
                && gid in plants && plants[gid] != []
                && var p := plants[gid][|plants[gid]| - 1];
                && IsNextId(PlantIds(old(plants)), p.id)
                && p == NewPlant(p.id, form)
                && plants == AppendPlant(old(plants), gid, p)
                && gardens == BumpCount(old(gardens), gid, 1)
                && selectedGarden == FindGarden(gardens, gid)
      ensures old(selectedGarden).Some? && HasId(old(gardens), old(selectedGarden).value.id) &&
              Consistent(old(gardens), old(plants))
              ==> Consistent(gardens, plants)
      ensures Consistent(old(gardens), old(plants)) && old(ShownPlantListed()) ==> ShownPlantListed()
      ensures isLoggedIn == old(isLoggedIn) && selectedPlant == old(selectedPlant)
    {
      if selectedGarden.Some? {
        var gid := selectedGarden.value.id;
        var id := NextPlantId(plants);
        var p := NewPlant(id, form);
        AddPlantStep(gardens, plants, gid, p);
        plants := AppendPlant(plants, gid, p);
        gardens := BumpCount(gardens, gid, 1);
        selectedGarden := FindGarden(gardens, gid);
      }
    }

    /**
     * Without a selected garden, or declined, nothing happens. Otherwise every plant
     * with the id leaves the selected garden's list, that garden's count goes down
     * by one whether or not a plant matched, the selection is re-read and the
     * selected plant cleared. When the garden has no list the filter throws before
     * any cell is written, so nothing changes.
     */
    method DeletePlant(pid: int, confirmed: bool)
      modifies this
      ensures !(old(selectedGarden).Some? && confirmed && old(selectedGarden).value.id in old(plants)) ==>
                gardens == old(gardens) && plants == old(plants) &&
                selectedGarden == old(selectedGarden) && selectedPlant == old(selectedPlant)
      ensures old(selectedGarden).Some? && confirmed && old(selectedGarden).value.id in old(plants) ==>
                var gid := old(selectedGarden).value.id;
                && plants == old(plants)[gid := WithoutPlant(old(plants)[gid], pid)]
                && gardens == BumpCount(old(gardens), gid, -1)
                && selectedGarden == FindGarden(gardens, gid)
                && selectedPlant == None
      ensures old(selectedGarden).Some? && confirmed && old(selectedGarden).value.id in old(plants) &&
              Occurrences(old(plants)[old(selectedGarden).value.id], pid) == 1 &&
              Consistent(old(gardens), old(plants))
              ==> Consistent(gardens, plants)
      ensures old(selectedPlant).Some? && pid == old(selectedPlant).value.id &&
              Consistent(old(gardens), old(plants)) && old(ShownPlantListed())
              ==> Consistent(gardens, plants)
      ensures old(ShownPlantListed()) ==> ShownPlantListed()
      ensures isLoggedIn == old(isLoggedIn)
    {
      if selectedGarden.Some? && confirmed && selectedGarden.value.id in plants {
        var gid := selectedGarden.value.id;
        if selectedPlant.Some? && pid == selectedPlant.value.id {
          ShownPlantOccursOnce(gardens, plants, gid, selectedPlant.value);
        }
        DeletePlantStep(gardens, plants, gid, pid);
        plants := plants[gid := WithoutPlant(plants[gid], pid)];
        gardens := BumpCount(gardens, gid, -1);
        selectedGarden := FindGarden(gardens, gid);
        selectedPlant := None;
      }
    }
  }

  lemma AddPlantStep(gs: seq<Garden>, plants: PlantsMap, gid: int, p: Plant)
    requires IsNextId(PlantIds(plants), p.id)
    ensures HasId(gs, gid) && Consistent(gs, plants) ==>
            Consistent(BumpCount(gs, gid, 1), AppendPlant(plants, gid, p))
  {
    if HasId(gs, gid) && Consistent(gs, plants) {
      AddPlantKeepsConsistent(gs, plants, gid, p);
    }
  }

  lemma DeletePlantStep(gs: seq<Garden>, plants: PlantsMap, gid: int, pid: int)
    requires gid in plants
    ensures Occurrences(plants[gid], pid) == 1 && Consistent(gs, plants) ==>
            Consistent(BumpCount(gs, gid, -1), plants[gid := WithoutPlant(plants[gid], pid)])
  {
    if Occurrences(plants[gid], pid) == 1 && Consistent(gs, plants) {
      DeletePlantKeepsConsistent(gs, plants, gid, pid);
    }
  }

  /** A plant listed under a garden of a consistent store occurs there exactly once. */
  lemma ShownPlantOccursOnce(gs: seq<Garden>, plants: PlantsMap, gid: int, shown: Plant)
    requires gid in plants
    ensures Consistent(gs, plants) && shown in plants[gid] ==> Occurrences(plants[gid], shown.id) == 1
  {
    if Consistent(gs, plants) && shown in plants[gid] {
      var i :| 0 <= i < |plants[gid]| && plants[gid][i] == shown;
      DeleteShownPlantOccursOnce(gs, plants, gid, i);
    }
  }

  /**
   * On the detail screen the plant shown came from the selected garden's list, so
   * in a consistent store its id occurs there exactly once and deleting it keeps
   * the cached count right.
   */
  lemma DeleteShownPlantOccursOnce(gs: seq<Garden>, plants: PlantsMap, gid: int, i: int)
    requires Consistent(gs, plants) && gid in plants && 0 <= i < |plants[gid]|
    ensures Occurrences(plants[gid], plants[gid][i].id) == 1
  {
    assert DistinctIds(plants[gid]) by {
      forall x, y | 0 <= x < y < |plants[gid]| ensures plants[gid][x].id != plants[gid][y].id {
        assert gid != gid || x != y;
      }
    }
    OccursOnce(plants[gid], i);
  }
}
