/**
 * The map's region table: 25 regions with ids 1..25, each with its caption,
 * the caption's position and its font size. Id 25 is captioned "АР Крим".
 */
module Regions {

  datatype Region = Region(id: int, title: string, titleX: int, titleY: int, fontSize: int)

  const AllRegions: seq<Region> := [
    Region(1, "Вінницька", 320, 310, 16),
    Region(2, "Волинська", 115, 115, 16),
    Region(3, "Дніпропетровська", 650, 350, 16),
    Region(4, "Донецька", 790, 415, 16),
    Region(5, "Житомирська", 320, 160, 16),
    Region(6, "Закарпатська", 45, 340, 16),
    Region(7, "Запорізька", 680, 460, 16),
    Region(8, "Івано-Франківська", 145, 340, 16),
    Region(9, "Київська", 450, 190, 16),
    Region(10, "Кіровоградська", 500, 340, 16),
    Region(11, "Луганська", 880, 310, 16),
    Region(12, "Львівська", 95, 240, 16),
    Region(13, "Миколаївська", 490, 465, 16),
    Region(14, "Одеська", 370, 510, 16),
    Region(15, "Полтавська", 600, 250, 16),
    Region(16, "Рівненська", 230, 115, 16),
    Region(17, "Сумська", 635, 130, 16),
    Region(18, "Тернопільська", 142, 275, 16),
    Region(19, "Харківська", 750, 240, 16),
    Region(20, "Херсонська", 570, 540, 16),
    Region(21, "Хмельницька", 240, 255, 16),
    Region(22, "Черкаська", 485, 280, 16),
    Region(23, "Чернівецька", 210, 370, 16),
    Region(24, "Чернігівська", 500, 90, 16),
    Region(25, "АР Крим", 690, 650, 16)
  ]

  /** The ids of the table: 1..25, in order. */
  lemma RegionIds()
    ensures |AllRegions| == 25
    ensures forall k :: 0 <= k < |AllRegions| ==> AllRegions[k].id == k + 1
  {
  }

  /** Whether the table has a region with this id. */
  predicate IsRegionId(id: int) {
    exists k :: 0 <= k < |AllRegions| && AllRegions[k].id == id
  }

  lemma RegionIdRange(id: int)
    ensures IsRegionId(id) <==> 1 <= id <= 25
  {
    RegionIds();
    if 1 <= id <= 25 {
      assert AllRegions[id - 1].id == id;
    }
  }
}
