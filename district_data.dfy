/**
 * The district and county tables embedded in js/district-map.js
 * (`createTexasDistrictsGeoJSON`, `createTexasCountiesGeoJSON`) and the facts the map relies on:
 * 38 districts numbered 1 to 38 in source order, every ring closed.
 */
module DistrictData {
  import opened JsText
  import opened DistrictFeatures

  /** `createTexasDistrictsGeoJSON()`: simplified boundaries of the 38 congressional districts. */
  function TexasDistricts(): FeatureCollection {
    FeatureCollection([
      CreateDistrictFeature("1", [Position(-94.0, 33.5), Position(-94.0, 31.8), Position(-95.5, 31.8), Position(-95.5, 32.3), Position(-95.0, 32.8), Position(-94.5, 33.5), Position(-94.0, 33.5)]),
      CreateDistrictFeature("2", [Position(-95.5, 29.9), Position(-94.5, 29.9), Position(-94.5, 29.3), Position(-95.0, 29.0), Position(-95.5, 29.3), Position(-95.5, 29.9)]),
      CreateDistrictFeature("3", [Position(-96.5, 33.4), Position(-96.5, 32.9), Position(-97.0, 32.9), Position(-97.0, 33.4), Position(-96.5, 33.4)]),
      CreateDistrictFeature("4", [Position(-94.0, 33.5), Position(-94.0, 34.0), Position(-96.5, 34.0), Position(-96.5, 33.0), Position(-95.5, 32.3), Position(-95.0, 32.8), Position(-94.5, 33.5), Position(-94.0, 33.5)]),
      CreateDistrictFeature("5", [Position(-96.5, 32.9), Position(-96.5, 32.5), Position(-96.9, 32.5), Position(-96.9, 32.9), Position(-96.5, 32.9)]),
      CreateDistrictFeature("6", [Position(-97.0, 32.9), Position(-97.0, 32.5), Position(-97.5, 32.5), Position(-97.5, 32.9), Position(-97.0, 32.9)]),
      CreateDistrictFeature("7", [Position(-95.6, 30.0), Position(-95.6, 29.6), Position(-95.3, 29.6), Position(-95.3, 30.0), Position(-95.6, 30.0)]),
      CreateDistrictFeature("8", [Position(-95.9, 31.1), Position(-95.0, 31.1), Position(-94.5, 30.9), Position(-94.5, 30.4), Position(-95.0, 30.2), Position(-95.6, 30.3), Position(-96.0, 30.5), Position(-96.0, 30.9), Position(-95.9, 31.1)]),
      CreateDistrictFeature("9", [Position(-95.4, 29.7), Position(-95.2, 29.7), Position(-95.2, 29.5), Position(-95.4, 29.5), Position(-95.4, 29.7)]),
      CreateDistrictFeature("10", [Position(-97.0, 30.5), Position(-96.0, 30.5), Position(-96.0, 29.8), Position(-97.0, 29.8), Position(-97.0, 30.5)]),
      CreateDistrictFeature("11", [Position(-100.0, 32.5), Position(-100.0, 31.0), Position(-102.5, 31.0), Position(-102.5, 32.5), Position(-100.0, 32.5)]),
      CreateDistrictFeature("12", [Position(-97.5, 33.0), Position(-97.0, 33.0), Position(-97.0, 32.5), Position(-97.5, 32.5), Position(-97.5, 33.0)]),
      CreateDistrictFeature("13", [Position(-100.0, 36.5), Position(-100.0, 33.5), Position(-103.0, 33.5), Position(-103.0, 36.5), Position(-100.0, 36.5)]),
      CreateDistrictFeature("14", [Position(-95.5, 29.5), Position(-94.5, 29.5), Position(-94.5, 28.8), Position(-95.5, 28.8), Position(-95.5, 29.5)]),
      CreateDistrictFeature("15", [Position(-98.5, 27.5), Position(-97.5, 27.5), Position(-97.5, 26.0), Position(-98.5, 26.0), Position(-98.5, 27.5)]),
      CreateDistrictFeature("16", [Position(-106.0, 32.0), Position(-106.0, 31.0), Position(-106.7, 31.0), Position(-106.7, 32.0), Position(-106.0, 32.0)]),
      CreateDistrictFeature("17", [Position(-97.0, 32.0), Position(-96.0, 32.0), Position(-96.0, 30.5), Position(-97.0, 30.5), Position(-97.0, 32.0)]),
      CreateDistrictFeature("18", [Position(-95.5, 29.9), Position(-95.3, 29.9), Position(-95.3, 29.7), Position(-95.5, 29.7), Position(-95.5, 29.9)]),
      CreateDistrictFeature("19", [Position(-100.0, 34.5), Position(-100.0, 32.5), Position(-102.5, 32.5), Position(-102.5, 34.5), Position(-100.0, 34.5)]),
      CreateDistrictFeature("20", [Position(-98.7, 29.6), Position(-98.4, 29.6), Position(-98.4, 29.3), Position(-98.7, 29.3), Position(-98.7, 29.6)]),
      CreateDistrictFeature("21", [Position(-98.5, 30.5), Position(-97.5, 30.5), Position(-97.5, 29.5), Position(-98.5, 29.5), Position(-98.5, 30.5)]),
      CreateDistrictFeature("22", [Position(-95.8, 29.7), Position(-95.5, 29.7), Position(-95.5, 29.3), Position(-95.8, 29.3), Position(-95.8, 29.7)]),
      CreateDistrictFeature("23", [Position(-100.0, 31.0), Position(-99.0, 31.0), Position(-99.0, 29.0), Position(-100.5, 29.0), Position(-104.0, 29.5), Position(-104.0, 31.0), Position(-100.0, 31.0)]),
      CreateDistrictFeature("24", [Position(-97.0, 33.0), Position(-96.7, 33.0), Position(-96.7, 32.7), Position(-97.0, 32.7), Position(-97.0, 33.0)]),
      CreateDistrictFeature("25", [Position(-97.8, 30.5), Position(-97.5, 30.5), Position(-97.5, 30.2), Position(-97.8, 30.2), Position(-97.8, 30.5)]),
      CreateDistrictFeature("26", [Position(-97.2, 33.5), Position(-96.8, 33.5), Position(-96.8, 33.0), Position(-97.2, 33.0), Position(-97.2, 33.5)]),
      CreateDistrictFeature("27", [Position(-97.5, 28.5), Position(-97.0, 28.5), Position(-97.0, 27.5), Position(-97.5, 27.5), Position(-97.5, 28.5)]),
      CreateDistrictFeature("28", [Position(-99.5, 29.5), Position(-98.5, 29.5), Position(-98.5, 27.5), Position(-99.5, 27.5), Position(-99.5, 29.5)]),
      CreateDistrictFeature("29", [Position(-95.3, 29.9), Position(-95.1, 29.9), Position(-95.1, 29.7), Position(-95.3, 29.7), Position(-95.3, 29.9)]),
      CreateDistrictFeature("30", [Position(-96.9, 32.8), Position(-96.7, 32.8), Position(-96.7, 32.6), Position(-96.9, 32.6), Position(-96.9, 32.8)]),
      CreateDistrictFeature("31", [Position(-97.8, 31.2), Position(-97.2, 31.2), Position(-97.2, 30.5), Position(-97.8, 30.5), Position(-97.8, 31.2)]),
      CreateDistrictFeature("32", [Position(-96.8, 33.0), Position(-96.6, 33.0), Position(-96.6, 32.8), Position(-96.8, 32.8), Position(-96.8, 33.0)]),
      CreateDistrictFeature("33", [Position(-97.0, 32.8), Position(-96.9, 32.8), Position(-96.9, 32.6), Position(-97.0, 32.6), Position(-97.0, 32.8)]),
      CreateDistrictFeature("34", [Position(-97.5, 26.5), Position(-97.0, 26.5), Position(-97.0, 26.0), Position(-97.5, 26.0), Position(-97.5, 26.5)]),
      CreateDistrictFeature("35", [Position(-97.8, 30.2), Position(-97.5, 30.2), Position(-97.5, 29.4), Position(-98.0, 29.4), Position(-98.0, 29.8), Position(-97.8, 30.2)]),
      CreateDistrictFeature("36", [Position(-94.5, 30.4), Position(-93.5, 30.4), Position(-93.5, 29.5), Position(-94.5, 29.5), Position(-94.5, 30.4)]),
      CreateDistrictFeature("37", [Position(-97.8, 30.4), Position(-97.6, 30.4), Position(-97.6, 30.1), Position(-97.8, 30.1), Position(-97.8, 30.4)]),
      CreateDistrictFeature("38", [Position(-96.0, 30.3), Position(-95.6, 30.3), Position(-95.6, 29.9), Position(-96.0, 29.9), Position(-96.0, 30.3)])
    ])
  }

  /** `createTexasCountiesGeoJSON()`: simplified boundaries of 17 counties. */
  function TexasCounties(): FeatureCollection {
    FeatureCollection([
      CreateCountyFeature("Harris", [Position(-95.8, 30.2), Position(-95.0, 30.2), Position(-95.0, 29.5), Position(-95.8, 29.5), Position(-95.8, 30.2)]),
      CreateCountyFeature("Montgomery", [Position(-95.8, 30.6), Position(-95.2, 30.6), Position(-95.2, 30.2), Position(-95.8, 30.2), Position(-95.8, 30.6)]),
      CreateCountyFeature("Walker", [Position(-95.8, 31.0), Position(-95.2, 31.0), Position(-95.2, 30.6), Position(-95.8, 30.6), Position(-95.8, 31.0)]),
      CreateCountyFeature("San Jacinto", [Position(-95.2, 30.8), Position(-94.8, 30.8), Position(-94.8, 30.4), Position(-95.2, 30.4), Position(-95.2, 30.8)]),
      CreateCountyFeature("Polk", [Position(-95.0, 31.0), Position(-94.5, 31.0), Position(-94.5, 30.5), Position(-95.0, 30.5), Position(-95.0, 31.0)]),
      CreateCountyFeature("Dallas", [Position(-97.0, 33.0), Position(-96.5, 33.0), Position(-96.5, 32.5), Position(-97.0, 32.5), Position(-97.0, 33.0)]),
      CreateCountyFeature("Tarrant", [Position(-97.6, 33.0), Position(-97.0, 33.0), Position(-97.0, 32.5), Position(-97.6, 32.5), Position(-97.6, 33.0)]),
      CreateCountyFeature("Bexar", [Position(-98.8, 29.8), Position(-98.2, 29.8), Position(-98.2, 29.2), Position(-98.8, 29.2), Position(-98.8, 29.8)]),
      CreateCountyFeature("Travis", [Position(-98.0, 30.5), Position(-97.4, 30.5), Position(-97.4, 30.0), Position(-98.0, 30.0), Position(-98.0, 30.5)]),
      CreateCountyFeature("Collin", [Position(-96.8, 33.5), Position(-96.3, 33.5), Position(-96.3, 33.0), Position(-96.8, 33.0), Position(-96.8, 33.5)]),
      CreateCountyFeature("Denton", [Position(-97.4, 33.5), Position(-96.8, 33.5), Position(-96.8, 33.0), Position(-97.4, 33.0), Position(-97.4, 33.5)]),
      CreateCountyFeature("El Paso", [Position(-106.6, 32.0), Position(-106.2, 32.0), Position(-106.2, 31.4), Position(-106.6, 31.4), Position(-106.6, 32.0)]),
      CreateCountyFeature("Fort Bend", [Position(-96.0, 29.7), Position(-95.5, 29.7), Position(-95.5, 29.3), Position(-96.0, 29.3), Position(-96.0, 29.7)]),
      CreateCountyFeature("Williamson", [Position(-97.8, 30.8), Position(-97.3, 30.8), Position(-97.3, 30.4), Position(-97.8, 30.4), Position(-97.8, 30.8)]),
      CreateCountyFeature("Grimes", [Position(-96.2, 30.7), Position(-95.8, 30.7), Position(-95.8, 30.3), Position(-96.2, 30.3), Position(-96.2, 30.7)]),
      CreateCountyFeature("Trinity", [Position(-95.5, 31.3), Position(-95.0, 31.3), Position(-95.0, 30.9), Position(-95.5, 30.9), Position(-95.5, 31.3)]),
      CreateCountyFeature("Houston", [Position(-95.8, 31.5), Position(-95.2, 31.5), Position(-95.2, 31.0), Position(-95.8, 31.0), Position(-95.8, 31.5)])
    ])
  }

  /** A GeoJSON linear ring: at least four positions, the last equal to the first. */
  predicate ClosedRing(r: Ring) {
    |r| >= 4 && r[0] == r[|r| - 1]
  }

  /** Every feature is a single-ring polygon whose ring is closed. */
  predicate ClosedSingleRings(fc: FeatureCollection) {
    forall i :: 0 <= i < |fc.features| ==>
      |fc.features[i].geometry.coordinates| == 1 && ClosedRing(fc.features[i].geometry.coordinates[0])
  }

  lemma DistrictRingsClosed()
    ensures ClosedSingleRings(TexasDistricts())
  {
  }

  lemma CountyRingsClosed()
    ensures |TexasCounties().features| == 17
    ensures ClosedSingleRings(TexasCounties())
    ensures forall i :: 0 <= i < 17 ==> TexasCounties().features[i].properties.CountyProperties?
  {
  }

  /** The district ids in the order the table lists them. */
  const SourceOrderIds: seq<string> := ["1", "2", "3", "4", "5", "6", "7", "8", "9", "10", "11", "12", "13", "14", "15", "16", "17", "18", "19", "20", "21", "22", "23", "24", "25", "26", "27", "28", "29", "30", "31", "32", "33", "34", "35", "36", "37", "38"]

  lemma TexasDistrictIdList()
    ensures |TexasDistricts().features| == |SourceOrderIds| == 38
    ensures forall i :: 0 <= i < 38 ==> DistrictOf(TexasDistricts().features[i]) == Some(SourceOrderIds[i])
  {
  }

  lemma SourceIdsDecade0(i: nat)
    requires 0 <= i < 10
    ensures SourceOrderIds[i] == DecimalString(i + 1)
  {
    assert i in {0, 1, 2, 3, 4, 5, 6, 7, 8, 9};
  }

  lemma SourceIdsDecade1(i: nat)
    requires 10 <= i < 20
    ensures SourceOrderIds[i] == DecimalString(i + 1)
  {
    assert i in {10, 11, 12, 13, 14, 15, 16, 17, 18, 19};
  }

  lemma SourceIdsDecade2(i: nat)
    requires 20 <= i < 30
    ensures SourceOrderIds[i] == DecimalString(i + 1)
  {
    assert i in {20, 21, 22, 23, 24, 25, 26, 27, 28, 29};
  }

  lemma SourceIdsDecade3(i: nat)
    requires 30 <= i < 38
    ensures SourceOrderIds[i] == DecimalString(i + 1)
  {
    assert i in {30, 31, 32, 33, 34, 35, 36, 37};
  }

  /** The table holds 38 district features whose ids are "1" to "38" in source order. */
  lemma TexasDistrictIds()
    ensures |TexasDistricts().features| == 38
    ensures forall i :: 0 <= i < 38 ==> DistrictOf(TexasDistricts().features[i]) == Some(DecimalString(i + 1))
  {
    TexasDistrictIdList();
    forall i | 0 <= i < 38
      ensures SourceOrderIds[i] == DecimalString(i + 1)
    {
      if i < 10 {
        SourceIdsDecade0(i);
      } else if i < 20 {
        SourceIdsDecade1(i);
      } else if i < 30 {
        SourceIdsDecade2(i);
      } else {
        SourceIdsDecade3(i);
      }
    }
  }

  /** No two districts of the table share an id, and exactly one of them is "8". */
  lemma TexasDistrictIdsDistinct()
    ensures forall i, j :: 0 <= i < j < 38 ==>
      DistrictOf(TexasDistricts().features[i]) != DistrictOf(TexasDistricts().features[j])
    ensures forall i :: 0 <= i < 38 ==> (DistrictOf(TexasDistricts().features[i]) == Some("8") <==> i == 7)
  {
    var fs := TexasDistricts().features;
    TexasDistrictIds();
    forall i, j | 0 <= i < j < 38
      ensures DistrictOf(fs[i]) != DistrictOf(fs[j])
    {
      DecimalStringInjective(i + 1, j + 1);
    }
    forall i | 0 <= i < 38
      ensures DistrictOf(fs[i]) == Some("8") <==> i == 7
    {
      assert DecimalString(8) == "8";
      DecimalStringInjective(i + 1, 8);
    }
  }
}
