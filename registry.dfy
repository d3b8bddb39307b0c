/**
 * The static registry of monitored storefronts (`RESTAURANTS`): platform,
 * location label and storefront URL, nine on Bolt and nine on Wolt.
 */
module Registry {

  datatype Entry = Entry(platform: string, location: string, url: string)

  const Restaurants: seq<Entry> := [
    Entry("Bolt", "Burgers Militari", "https://food.bolt.eu/ro-RO/325-bucharest/p/53203"),
    Entry("Bolt", "Smash Militari", "https://food.bolt.eu/ro-RO/325-bucharest/p/157022-smash-gorilla/info"),
    Entry("Bolt", "Burgers Olteniței", "https://food.bolt.eu/ro-RO/325-bucharest/p/81061-gorilla's-crazy-burgers-berceni"),
    Entry("Bolt", "Smash Olteniței", "https://food.bolt.eu/ro-RO/325-bucharest/p/156512"),
    Entry("Bolt", "Smash Moșilor", "https://food.bolt.eu/ro-RO/325-bucharest/p/157033-smash-gorilla"),
    Entry("Bolt", "Burgers Moșilor", "https://food.bolt.eu/ro-RO/325-bucharest/p/69192-gorilla's-crazy-burgers-mosilor"),
    Entry("Bolt", "Burgers Pipera", "https://food.bolt.eu/ro-RO/325-bucharest/p/122872-gorilla's-crazy-burgers-pipera"),
    Entry("Bolt", "Smash Pipera", "https://food.bolt.eu/en-US/325-bucharest/p/157013-smash-gorilla/?utm_content=menu_header&utm_medium=product&utm_source=share_provider"),
    Entry("Bolt", "Tacos Olteniței", "https://food.bolt.eu/ro-RO/325-bucharest/p/130672-gorilla's-crazy-tacos"),
    Entry("Wolt", "Burgers Militari", "https://wolt.com/en/rou/bucharest/restaurant/gorillas-crazy-burgers-gorjului-67dc3f47b93a5300e8efd705"),
    Entry("Wolt", "Smash Militari", "https://wolt.com/ro/rou/bucharest/restaurant/smash-gorilla-gorjului-6880a63946c4278a97069f59"),
    Entry("Wolt", "Burgers Olteniței", "https://wolt.com/ro/rou/bucharest/restaurant/gorillas-crazy-burgers-oltenitei-67e189430bd3fc375bb3acc8"),
    Entry("Wolt", "Smash Olteniței", "https://wolt.com/ro/rou/bucharest/restaurant/smash-gorilla-berceni-6880a32754547abea1869cec"),
    Entry("Wolt", "Smash Moșilor", "https://wolt.com/en/rou/bucharest/restaurant/smash-gorilla-mosilor-6880a63946c4278a97069f5a"),
    Entry("Wolt", "Burgers Moșilor", "https://wolt.com/en/rou/bucharest/restaurant/gorillas-crazy-burgers-mosilor-67dc3f47b93a5300e8efd706"),
    Entry("Wolt", "Burgers Pipera", "https://wolt.com/ro/rou/bucharest/restaurant/gorillas-crazy-burgers-pipera-67e189430bd3fc375bb3acc9"),
    Entry("Wolt", "Smash Pipera", "https://wolt.com/en/rou/bucharest/restaurant/smash-gorilla-pipera-6880a32754547abea1869ced"),
    Entry("Wolt", "Tacos Olteniței", "https://wolt.com/en/rou/bucharest/restaurant/gorillas-crazy-tacos-berceni-67db0092e014794baf59070a")
  ]

  /** No two entries share a storefront URL, the key of the results map. */
  predicate DistinctUrls(items: seq<Entry>)
  {
    forall i, j :: 0 <= i < j < |items| ==> items[i].url != items[j].url
  }

  /** The length and the last character of a URL: enough to tell the registry's URLs apart. */
  function Fingerprint(url: string): (int, char)
  {
    (|url|, if url == [] then ' ' else url[|url| - 1])
  }

  /** The position in `Restaurants` of the entry with this URL's fingerprint. */
  function RegistryIndex(url: string): nat
  {
    var fp := Fingerprint(url);
    if fp == (48, '3') then 0
    else if fp == (68, 'o') then 1
    else if fp == (80, 'i') then 2
    else if fp == (49, '2') then 3
    else if fp == (63, 'a') then 4
    else if fp == (80, 'r') then 5
    else if fp == (80, 'a') then 6
    else if fp == (133, 'r') then 7
    else if fp == (71, 's') then 8
    else if fp == (101, '5') then 9
    else if fp == (92, '9') then 10
    else if fp == (102, '8') then 11
    else if fp == (91, 'c') then 12
    else if fp == (91, 'a') then 13
    else if fp == (100, '6') then 14
    else if fp == (99, '9') then 15
    else if fp == (90, 'd') then 16
    else if fp == (98, 'a') then 17
    else |Restaurants|
  }

  lemma RegistryIndexFrom0()
    ensures forall i :: 0 <= i < 3 ==> RegistryIndex(Restaurants[i].url) == i
  {
    assert RegistryIndex(Restaurants[0].url) == 0;
    assert RegistryIndex(Restaurants[1].url) == 1;
    assert RegistryIndex(Restaurants[2].url) == 2;
  }

  lemma RegistryIndexFrom3()
    ensures forall i :: 3 <= i < 6 ==> RegistryIndex(Restaurants[i].url) == i
  {
    assert RegistryIndex(Restaurants[3].url) == 3;
    assert RegistryIndex(Restaurants[4].url) == 4;
    assert RegistryIndex(Restaurants[5].url) == 5;
  }

  lemma RegistryIndexFrom6()
    ensures forall i :: 6 <= i < 9 ==> RegistryIndex(Restaurants[i].url) == i
  {
    assert RegistryIndex(Restaurants[6].url) == 6;
    assert RegistryIndex(Restaurants[7].url) == 7;
    assert RegistryIndex(Restaurants[8].url) == 8;
  }

  lemma RegistryIndexFrom9()
    ensures forall i :: 9 <= i < 12 ==> RegistryIndex(Restaurants[i].url) == i
  {
    assert RegistryIndex(Restaurants[9].url) == 9;
    assert RegistryIndex(Restaurants[10].url) == 10;
    assert RegistryIndex(Restaurants[11].url) == 11;
  }

  lemma RegistryIndexFrom12()
    ensures forall i :: 12 <= i < 15 ==> RegistryIndex(Restaurants[i].url) == i
  {
    assert RegistryIndex(Restaurants[12].url) == 12;
    assert RegistryIndex(Restaurants[13].url) == 13;
    assert RegistryIndex(Restaurants[14].url) == 14;
  }

  lemma RegistryIndexFrom15()
    ensures forall i :: 15 <= i < 18 ==> RegistryIndex(Restaurants[i].url) == i
  {
    assert RegistryIndex(Restaurants[15].url) == 15;
    assert RegistryIndex(Restaurants[16].url) == 16;
    assert RegistryIndex(Restaurants[17].url) == 17;
  }

  /** Every entry's URL has its own fingerprint, so no two entries share a URL. */
  lemma RestaurantsHaveDistinctUrls()
    ensures DistinctUrls(Restaurants)
  {
    RegistryIndexFrom0();
    RegistryIndexFrom3();
    RegistryIndexFrom6();
    RegistryIndexFrom9();
    RegistryIndexFrom12();
    RegistryIndexFrom15();
    assert forall i :: 0 <= i < |Restaurants| ==> RegistryIndex(Restaurants[i].url) == i;
  }
}
