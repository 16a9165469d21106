/**
  The service catalogue written at start-up when the services table is
  empty.
 */
module StartupSeed {
  import opened Wrappers
  import opened Models
  import opened Store

  // ---------------------------------------------------------------------------
  // init_db
  // ---------------------------------------------------------------------------

  /** The seed catalogue: Arabic name and description only, so no English name and the default price. */
  const SeedServices: seq<Service> := [
    NewService("إدارة المرافق العامة",
               description := Some("حلول متكاملة لتشغيل وإدارة المرافق لضمان استمرارية الأعمال ورفع الكفاءة التشغيلية.")),
    NewService("اللالندسكيب والمساحات الخضراء",
               description := Some("تصميم وتطوير المساحات الخضراء وصيانتها بأنظمة ري مستدامة.")),
    NewService("الكهرباء",
               description := Some("تمديد الشبكات، تركيب اللوحات، أعمال التأريض والإنارة الداخلية والخارجية.")),
    NewService("السباكة",
               description := Some("تمديد الأنابيب، إصلاح التسريبات والانسدادات، وصيانة الخزانات.")),
    NewService("الميكانيكا",
               description := Some("صيانة المصاعد وأنظمة التكييف والمضخات والأنابيب.")),
    NewService("النظافة",
               description := Some("نظافة يومية وعميقة، تعقيم وتطهير، تنظيف الواجهات وإدارة النفايات.")),
    NewService("أنظمة المباني والكاميرات",
               description := Some("توريد وتركيب أنظمة المراقبة وربطها بغرف التحكم والصيانة الدورية.")),
    NewService("الضيافة",
               description := Some("توفير أطقم ضيافة مدربة وتنظيم المناسبات وصالات الانتظار."))
  ]

  /** The first `count` entries of `catalogue` under the keys `first`, `first + 1`, ... */
  function SeedTable(catalogue: seq<Service>, first: int, count: nat): (m: map<int, Service>)
    requires count <= |catalogue|
    ensures forall k :: k in m <==> first <= k < first + count
    ensures forall k :: k in m ==> m[k] == catalogue[k - first]
  {
    if count == 0 then map[]
    else SeedTable(catalogue, first, count - 1)[first + count - 1 := catalogue[count - 1]]
  }

  lemma {:induction false} SeedTableSize(catalogue: seq<Service>, first: int, count: nat)
    requires count <= |catalogue|
    ensures |SeedTable(catalogue, first, count)| == count
  {
    if count > 0 {
      var m := SeedTable(catalogue, first, count - 1);
      SeedTableSize(catalogue, first, count - 1);
      assert first + count - 1 !in m;
      assert SeedTable(catalogue, first, count) == m[first + count - 1 := catalogue[count - 1]];
    }
  }

  /** The tables after seeding `catalogue` unless a service exists, with `first` the key the first insert receives. */
  function SeedIfEmpty(t: Tables, first: int, catalogue: seq<Service>): (r: Tables)
    ensures t.services != map[] ==> r == t
    ensures t.services == map[] ==> r == t.(services := SeedTable(catalogue, first, |catalogue|))
    ensures catalogue != [] ==> r.services != map[]
  {
    if t.services != map[] then t
    else
      assert catalogue != [] ==> first in SeedTable(catalogue, first, |catalogue|);
      t.(services := SeedTable(catalogue, first, |catalogue|))
  }

  /** The tables after `init_db`. */
  function InitDbEffect(t: Tables, first: int): (r: Tables)
    ensures t.services != map[] ==> r == t
    ensures t.services == map[] ==> r == t.(services := SeedTable(SeedServices, first, |SeedServices|))
    ensures r.services != map[]
  {
    SeedIfEmpty(t, first, SeedServices)
  }

  /** Seeding a second time, with whatever keys, changes nothing. */
  lemma InitDbIdempotent(t: Tables, first: int, first2: int)
    ensures InitDbEffect(InitDbEffect(t, first), first2) == InitDbEffect(t, first)
  {
  }

  /**
    On an empty catalogue the seed adds exactly eight services, in seed
    order under consecutive keys, each with no English name and a zero
    price; nothing else changes.
   */
  lemma SeedAddsTheCatalogue(t: Tables, first: int)
    requires t.services == map[]
    ensures var r := InitDbEffect(t, first);
            && |r.services| == |SeedServices| == 8
            && (forall i :: 0 <= i < |SeedServices| ==> first + i in r.services && r.services[first + i] == SeedServices[i])
            && (forall k :: k in r.services ==> r.services[k].price == ZeroFloat && r.services[k].nameEn.None?)
            && r.(services := t.services) == t
  {
    SeedServicesHaveNoPrice();
    SeedAddsAll(t, first, SeedServices);
    var r := InitDbEffect(t, first);
    forall k | k in r.services ensures r.services[k].price == ZeroFloat && r.services[k].nameEn.None? {
      var i := k - first;
      assert r.services[k] == SeedServices[i];
    }
  }

  /** Seeding an empty table adds each entry of the catalogue once, under consecutive keys. */
  lemma SeedAddsAll(t: Tables, first: int, catalogue: seq<Service>)
    requires t.services == map[]
    ensures var r := SeedIfEmpty(t, first, catalogue);
            && |r.services| == |catalogue|
            && (forall i :: 0 <= i < |catalogue| ==> first + i in r.services && r.services[first + i] == catalogue[i])
            && (forall k :: k in r.services ==> first <= k < first + |catalogue| && r.services[k] == catalogue[k - first])
            && r.(services := t.services) == t
  {
    SeedTableSize(catalogue, first, |catalogue|);
    var m := SeedTable(catalogue, first, |catalogue|);
    assert forall i :: 0 <= i < |catalogue| ==> first + i in m && m[first + i] == catalogue[i];
  }

  /** No seed entry names a price or an English name, and there are eight. */
  lemma SeedServicesHaveNoPrice()
    ensures |SeedServices| == 8
    ensures forall i :: 0 <= i < |SeedServices| ==> SeedServices[i].price == ZeroFloat && SeedServices[i].nameEn.None?
  {
  }

  /** The insert loop of `init_db`, for any catalogue. */
  method SeedServicesIfEmpty(db: Database, catalogue: seq<Service>)
    requires db.Valid()
    modifies db
    ensures db.Valid()
    ensures db.Contents() == SeedIfEmpty(old(db.Contents()), old(db.nextId), catalogue)
  {
    if db.services != map[] {
      return;
    }
    ghost var first := db.nextId;
    for i := 0 to |catalogue|
      invariant db.Valid()
      invariant db.nextId == first + i
      invariant db.services == SeedTable(catalogue, first, i)
      invariant db.users == old(db.users) && db.bookings == old(db.bookings)
      invariant db.reviews == old(db.reviews) && db.resetTokens == old(db.resetTokens)
    {
      var id := db.AllocateId();
      db.services := db.services[id := catalogue[i]];
    }
  }

  /** `init_db`: insert the catalogue one service at a time unless a service already exists. */
  method InitDb(db: Database)
    requires db.Valid()
    modifies db
    ensures db.Valid()
    ensures db.Contents() == InitDbEffect(old(db.Contents()), old(db.nextId))
  {
    SeedServicesIfEmpty(db, SeedServices);
  }
}
