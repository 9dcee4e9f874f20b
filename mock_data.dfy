/**
 * The sample data every session starts from (src/constants/mockData.ts): three
 * gardens and fifteen plants, and what the store invariant says about them.
 */
module MockData {
  import opened Types
  import opened Store

  const MockGardens: seq<Garden> := [
    Garden(1, "Indoor Garden", 8, None),
    Garden(2, "Greenhouse", 4, None),
    Garden(3, "Outdoor Garden", 3, None)
  ]

  const IndoorPlants: seq<Plant> := [
    Plant(1, "Monstera Deliciosa", "Tropical", 72, 65, "Bright Indirect", "Good", "2 days ago", Excellent,
          "https://images.unsplash.com/photo-1614594975525-e45190c55d0b?w=400&h=400&fit=crop"),
    Plant(2, "Snake Plant", "Succulent", 70, 45, "Low", "Good", "5 days ago", Good,
          "https://images.unsplash.com/photo-1593482892290-81f08cb4f7ca?w=400&h=400&fit=crop"),
    Plant(3, "Pothos", "Vine", 73, 60, "Medium", "Needs Water", "4 days ago", Good,
          "https://images.unsplash.com/photo-1572688484438-313a6e50c333?w=400&h=400&fit=crop"),
    Plant(4, "Peace Lily", "Tropical", 71, 70, "Medium", "Good", "1 day ago", Excellent,
          "https://images.unsplash.com/photo-1593691509543-c55fb32d8de5?w=400&h=400&fit=crop"),
    Plant(5, "Spider Plant", "Tropical", 69, 55, "Bright Indirect", "Good", "3 days ago", Good,
          "https://images.unsplash.com/photo-1572688484438-313a6e50c333?w=400&h=400&fit=crop"),
    Plant(6, "Aloe Vera", "Succulent", 75, 40, "Bright Direct", "Good", "7 days ago", Good,
          "https://images.unsplash.com/photo-1509587584298-0f3b3a3a1797?w=400&h=400&fit=crop"),
    Plant(7, "Fiddle Leaf Fig", "Tree", 72, 65, "Bright Indirect", "Good", "2 days ago", Excellent,
          "https://images.unsplash.com/photo-1545241047-6083a3684587?w=400&h=400&fit=crop"),
    Plant(8, "Rubber Plant", "Tree", 74, 62, "Bright Indirect", "Good", "3 days ago", Excellent,
          "https://images.unsplash.com/photo-1614594737552-c2f9d1f5b90f?w=400&h=400&fit=crop")
  ]

  const GreenhousePlants: seq<Plant> := [
    Plant(9, "Tomato Plant #1", "Vegetable", 78, 70, "Full Sun", "Good", "1 day ago", Excellent,
          "https://images.unsplash.com/photo-1592841200221-a6898f307baa?w=400&h=400&fit=crop"),
    Plant(10, "Basil", "Herb", 76, 65, "Full Sun", "Good", "1 day ago", Good,
          "https://images.unsplash.com/photo-1618375569909-3c8616cf976e?w=400&h=400&fit=crop"),
    Plant(11, "Pepper Plant", "Vegetable", 79, 68, "Full Sun", "Needs Water", "2 days ago", Good,
          "https://images.unsplash.com/photo-1563565375-f3fdfdbefa83?w=400&h=400&fit=crop"),
    Plant(12, "Cucumber Vine", "Vegetable", 77, 72, "Full Sun", "Good", "1 day ago", Excellent,
          "https://images.unsplash.com/photo-1604003290853-4b15f2d924cd?w=400&h=400&fit=crop")
  ]

  const OutdoorPlants: seq<Plant> := [
    Plant(13, "Rose Bush", "Flower", 68, 55, "Full Sun", "Good", "1 day ago", Good,
          "https://images.unsplash.com/photo-1518709594023-6eab9bab7b23?w=400&h=400&fit=crop"),
    Plant(14, "Lavender", "Herb", 70, 50, "Full Sun", "Good", "3 days ago", Excellent,
          "https://images.unsplash.com/photo-1595959068281-ea63e8ac2f0e?w=400&h=400&fit=crop"),
    Plant(15, "Sunflower", "Flower", 72, 52, "Full Sun", "Needs Water", "2 days ago", Good,
          "https://images.unsplash.com/photo-1597848212624-e0b25eff7dad?w=400&h=400&fit=crop")
  ]

  const MockPlants: PlantsMap := map[1 := IndoorPlants, 2 := GreenhousePlants, 3 := OutdoorPlants]

  /** The number of plant ids used by the gardens listed before garden `k`. */
  function IdOffset(k: int): int
  {
    if k == 1 then 0 else if k == 2 then 8 else 12
  }

  /** The sample plants are numbered 1 to 15, garden after garden, in list order. */
  lemma MockPlantIdsInOrder(k: int, i: int)
    requires k in MockPlants && 0 <= i < |MockPlants[k]|
    ensures MockPlants[k][i].id == IdOffset(k) + i + 1
    ensures 0 < MockPlants[k][i].id <= 15
  {
    assert k == 1 || k == 2 || k == 3;
  }

  /** The initial gardens and plants satisfy the store invariant. */
  lemma MockConsistent()
    ensures Consistent(MockGardens, MockPlants)
  {
    forall k ensures k in MockPlants <==> HasId(MockGardens, k) {
      if k in MockPlants {
        assert MockGardens[k - 1].id == k;
      }
    }
    forall k1: int, i1: int, k2: int, i2: int |
      k1 in MockPlants && k2 in MockPlants && 0 <= i1 < |MockPlants[k1]| && 0 <= i2 < |MockPlants[k2]| &&
      (k1 != k2 || i1 != i2)
      ensures MockPlants[k1][i1].id != MockPlants[k2][i2].id
    {
      MockPlantIdsInOrder(k1, i1);
      MockPlantIdsInOrder(k2, i2);
    }
  }

  /** The initial plant ids are exactly 1 to 15. */
  lemma MockPlantIds()
    ensures forall x :: x in PlantIds(MockPlants) <==> 1 <= x <= 15
  {
    forall x | x in PlantIds(MockPlants) ensures 1 <= x <= 15 {
      var k, i :| k in MockPlants && 0 <= i < |MockPlants[k]| && MockPlants[k][i].id == x;
      MockPlantIdsInOrder(k, i);
    }
    forall x | 1 <= x <= 15 ensures x in PlantIds(MockPlants) {
      var k := if x <= 8 then 1 else if x <= 12 then 2 else 3;
      MockPlantIdsInOrder(k, x - IdOffset(k) - 1);
    }
  }

  /** From the initial state the first added garden gets id 4. */
  lemma FirstGardenIdIsFour()
    ensures NextId(GardenIds(MockGardens)) == 4
  {
    var id := NextId(GardenIds(MockGardens));
    assert GardenIds(MockGardens) == [1, 2, 3];
    assert IsNextId(Elements([1, 2, 3]), 4);
    NextIdUnique(Elements([1, 2, 3]), id, 4);
  }

  /** From the initial state the first added plant gets id 16. */
  lemma FirstPlantIdIsSixteen(id: int)
    requires IsNextId(PlantIds(MockPlants), id)
    ensures id == 16
  {
    MockPlantIds();
    assert 15 in PlantIds(MockPlants);
  }
}
