/** Image descriptors: the metadata the game attaches to each loaded picture. Only the
    radius and the lifespan matter to the simulation; the rest is kept for completeness. */
module Assets {
  import opened Geometry

  datatype Option<T> = None | Some(value: T)

  /** How many updates a sprite lives; `Infinite` stands for Python's float('inf'). */
  datatype Lifespan = Finite(ticks: int) | Infinite

  /** `age >= lifespan`, with nothing reaching an infinite lifespan. */
  predicate Expired(age: int, life: Lifespan) {
    match life
    case Finite(n) => age >= n
    case Infinite => false
  }

  datatype ImageInfo = ImageInfo(center: Vec, size: Vec, radius: int, lifespan: Lifespan, animated: bool)

  /** ImageInfo's constructor. The lifespan argument is optional (None) and is read for its
      truth, so a missing lifespan and a lifespan of 0 both become infinite; any other
      value is kept. */
  function NewImageInfo(center: Vec, size: Vec, radius: int, lifespan: Option<int>, animated: bool): (r: ImageInfo)
    ensures r.lifespan == Infinite <==> (lifespan == None || lifespan == Some(0))
    ensures r.lifespan.Finite? ==> lifespan == Some(r.lifespan.ticks)
    ensures r.center == center && r.size == size && r.radius == radius && r.animated == animated
  {
    var life := match lifespan
      case Some(n) => if n != 0 then Finite(n) else Infinite
      case None => Infinite;
    ImageInfo(center, size, radius, life, animated)
  }

  /** A sprite built from a descriptor whose lifespan was missing or zero never expires,
      whatever its age. */
  lemma FalsyLifespanNeverExpires(center: Vec, size: Vec, radius: int, lifespan: Option<int>, animated: bool, age: int)
    requires lifespan == None || lifespan == Some(0)
    ensures !Expired(age, NewImageInfo(center, size, radius, lifespan, animated).lifespan)
  {
  }

  const SplashInfo: ImageInfo := NewImageInfo(Vec(200, 150), Vec(400, 300), 0, None, false)
  const ShipInfo: ImageInfo := NewImageInfo(Vec(45, 45), Vec(90, 90), 35, None, false)
  const MissileInfo: ImageInfo := NewImageInfo(Vec(5, 5), Vec(10, 10), 3, Some(50), false)
  const AsteroidInfo: ImageInfo := NewImageInfo(Vec(45, 45), Vec(90, 90), 40, None, false)

  /** The descriptors the simulation reads: only the missile's lifespan is finite. */
  lemma DescriptorsAsDeclared()
    ensures SplashInfo.size == Vec(400, 300) && SplashInfo.lifespan == Infinite
    ensures ShipInfo.center == Vec(45, 45) && ShipInfo.radius == 35 && ShipInfo.lifespan == Infinite
    ensures MissileInfo.radius == 3 && MissileInfo.lifespan == Finite(50)
    ensures AsteroidInfo.radius == 40 && AsteroidInfo.lifespan == Infinite
  {
  }
}
