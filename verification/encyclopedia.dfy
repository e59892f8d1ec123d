/**
  The encyclopedia: mascots keyed by the zone they belong to, zones grouped by region,
  one card per zone that has a mascot, and the choice between a mascot's picture and its
  silhouette. The resource table is a parameter: `getIdentifier` answers 0 for a name it
  does not know.
 */
module Encyclopedia {
  import opened Wrappers
  import opened OrderedMap
  import opened Sequences

  datatype Mascot = Mascot(id: int, zoneId: int, name: string, region: string, description: string,
                           imageUrl: string, isCollected: bool)

  datatype Zone = Zone(id: int, region: string, name: string)

  /* ---------- getMascotsByZone ---------- */

  /** No later mascot in the list has the same zone as the one at `i`. */
  predicate LastOfZone(ms: seq<Mascot>, i: int)
    requires 0 <= i < |ms|
  {
    forall j :: i < j < |ms| ==> ms[j].zoneId != ms[i].zoneId
  }

  /** `associateBy { it.zoneId }`, walking the list in order so that a later mascot replaces an earlier one. */
  function MascotsByZone(ms: seq<Mascot>): map<int, Mascot>
    decreases |ms|
  {
    if |ms| == 0 then map[] else MascotsByZone(ms[..|ms| - 1])[ms[|ms| - 1].zoneId := ms[|ms| - 1]]
  }

  /** The keys are exactly the zones of the listed mascots. */
  lemma {:induction false} MascotsByZoneKeys(ms: seq<Mascot>)
    ensures MascotsByZone(ms).Keys == set i | 0 <= i < |ms| :: ms[i].zoneId
    decreases |ms|
  {
    if |ms| > 0 {
      var init := ms[..|ms| - 1];
      MascotsByZoneKeys(init);
      var zones := set i | 0 <= i < |ms| :: ms[i].zoneId;
      var initZones := set i | 0 <= i < |init| :: init[i].zoneId;
      assert zones == initZones + {ms[|ms| - 1].zoneId} by {
        forall k | k in zones ensures k in initZones + {ms[|ms| - 1].zoneId} {
          var i :| 0 <= i < |ms| && ms[i].zoneId == k;
          if i < |init| { assert init[i].zoneId == k; }
        }
        forall k | k in initZones ensures k in zones {
          var i :| 0 <= i < |init| && init[i].zoneId == k;
          assert ms[i].zoneId == k;
        }
        assert ms[|ms| - 1].zoneId in zones;
      }
    }
  }

  /** Each value is a listed mascot whose zone is its key. */
  lemma {:induction false} MascotsByZoneValues(ms: seq<Mascot>)
    ensures forall k :: k in MascotsByZone(ms) ==> MascotsByZone(ms)[k].zoneId == k && MascotsByZone(ms)[k] in ms
    decreases |ms|
  {
    if |ms| > 0 {
      var init := ms[..|ms| - 1];
      MascotsByZoneValues(init);
      var m0 := MascotsByZone(init);
      var m := MascotsByZone(ms);
      forall k | k in m ensures m[k].zoneId == k && m[k] in ms {
        if k != ms[|ms| - 1].zoneId {
          assert m[k] == m0[k] && m0[k] in init;
        }
      }
    }
  }

  /** For duplicate zones the last mascot in the list wins. */
  lemma {:induction false} LastMascotWins(ms: seq<Mascot>, i: int)
    requires 0 <= i < |ms| && LastOfZone(ms, i)
    ensures ms[i].zoneId in MascotsByZone(ms) && MascotsByZone(ms)[ms[i].zoneId] == ms[i]
    decreases |ms|
  {
    if i < |ms| - 1 {
      var init := ms[..|ms| - 1];
      assert init[i] == ms[i];
      assert LastOfZone(init, i) by {
        forall j | i < j < |init| ensures init[j].zoneId != init[i].zoneId {
          assert init[j] == ms[j];
        }
      }
      LastMascotWins(init, i);
      assert ms[|ms| - 1].zoneId != ms[i].zoneId;
    }
  }

  /** An empty list gives an empty map. */
  lemma MascotsByZoneEmpty()
    ensures MascotsByZone([]) == map[]
  {
  }

  /** Two mascots of one zone: the later one wins. */
  lemma LaterMascotWins(a: Mascot, b: Mascot)
    requires a.zoneId == b.zoneId
    ensures MascotsByZone([a, b]) == map[a.zoneId := b]
  {
    assert [a, b][..1] == [a];
    assert [a][..0] == [];
    assert MascotsByZone([a]) == map[a.zoneId := a];
  }

  /* ---------- the card picture ---------- */

  /** `getIdentifier(name, "drawable", …)`: the resource's id, or 0 when there is none. */
  function ResourceId(resources: map<string, int>, name: string): int {
    if name in resources then resources[name] else 0
  }

  const SilhouetteSuffix: string := "_silhouette"

  function SilhouetteName(imageUrl: string): (n: string)
    ensures |n| == |imageUrl| + |SilhouetteSuffix|
    ensures n[..|imageUrl|] == imageUrl && n[|imageUrl|..] == SilhouetteSuffix
  {
    imageUrl + SilhouetteSuffix
  }

  /** `finalImageId`: the picture when collected, the silhouette when not, 0 (no image) when that resource is missing. */
  function FinalImageId(m: Mascot, resources: map<string, int>): (r: int)
    ensures m.isCollected ==> r == ResourceId(resources, m.imageUrl)
    ensures !m.isCollected ==> r == ResourceId(resources, SilhouetteName(m.imageUrl))
  {
    var imageId := ResourceId(resources, m.imageUrl);
    var silhouetteId := ResourceId(resources, SilhouetteName(m.imageUrl));
    if m.isCollected && imageId != 0 then imageId
    else if !m.isCollected && silhouetteId != 0 then silhouetteId
    else 0
  }

  /**
    An uncollected mascot never shows its picture and a collected one never shows its
    silhouette (unless the two resource ids coincide); a card draws an image exactly
    when the resource its state calls for exists.
   */
  lemma PictureMatchesCollection(m: Mascot, resources: map<string, int>)
    ensures var r := FinalImageId(m, resources);
            && (r != 0 <==> (if m.isCollected then ResourceId(resources, m.imageUrl) != 0
                             else ResourceId(resources, SilhouetteName(m.imageUrl)) != 0))
            && (!m.isCollected && r != 0 ==> m.imageUrl + SilhouetteSuffix in resources)
            && (m.isCollected && r != 0 ==> m.imageUrl in resources)
  {
  }

  /* ---------- grouping and cards ---------- */

  /** The zones of `region`, in list order. */
  function ZonesOf(zs: seq<Zone>, region: string): (r: seq<Zone>)
    ensures forall z :: z in r <==> z in zs && z.region == region
    decreases |zs|
  {
    if |zs| == 0 then []
    else ZonesOf(zs[..|zs| - 1], region) + (if zs[|zs| - 1].region == region then [zs[|zs| - 1]] else [])
  }

  /** `zones.groupBy { it.region }`: one entry per region, in order of first appearance, holding that region's zones. */
  function GroupByRegion(zs: seq<Zone>): (g: OMap<string, seq<Zone>>)
    ensures Valid(g)
    decreases |zs|
  {
    if |zs| == 0 then []
    else
      var g0 := GroupByRegion(zs[..|zs| - 1]);
      var z := zs[|zs| - 1];
      Put(g0, z.region, Get(g0, z.region).GetOr([]) + [z])
  }

  lemma {:induction false} ZonesOfAbsent(zs: seq<Zone>, region: string)
    requires forall z :: z in zs ==> z.region != region
    ensures ZonesOf(zs, region) == []
    decreases |zs|
  {
    if |zs| > 0 {
      assert zs[|zs| - 1] in zs;
      ZonesOfAbsent(zs[..|zs| - 1], region);
    }
  }

  /** Each group holds exactly its region's zones in list order, and every listed zone's region has a group. */
  lemma {:induction false} GroupByRegionSpec(zs: seq<Zone>)
    ensures forall i :: 0 <= i < |GroupByRegion(zs)| ==>
              GroupByRegion(zs)[i].value == ZonesOf(zs, GroupByRegion(zs)[i].key)
    ensures forall z :: z in zs ==> HasKey(GroupByRegion(zs), z.region)
    decreases |zs|
  {
    if |zs| > 0 {
      var init := zs[..|zs| - 1];
      var z := zs[|zs| - 1];
      GroupByRegionSpec(init);
      var g0 := GroupByRegion(init);
      var prior := Get(g0, z.region).GetOr([]);
      var g := GroupByRegion(zs);
      assert g == Put(g0, z.region, prior + [z]);
      assert prior == ZonesOf(init, z.region) by {
        if !HasKey(g0, z.region) {
          ZonesOfAbsent(init, z.region);
        } else {
          var i := IndexOf(g0, z.region);
        }
      }
      assert forall y :: y in zs <==> y in init || y == z;
      forall i | 0 <= i < |g| ensures g[i].value == ZonesOf(zs, g[i].key) {
        if g[i].key != z.region {
          assert g[i] == g0[i];
        }
      }
      forall y | y in zs ensures HasKey(g, y.region) {
        GetPut(g0, z.region, prior + [z], y.region);
      }
    }
  }

  /** Every group's region is the region of some listed zone. */
  lemma {:induction false} GroupsComeFromZones(zs: seq<Zone>)
    ensures forall i :: 0 <= i < |GroupByRegion(zs)| ==> GroupByRegion(zs)[i].key in RegionsOf(zs)
    decreases |zs|
  {
    if |zs| > 0 {
      var init := zs[..|zs| - 1];
      var z := zs[|zs| - 1];
      GroupsComeFromZones(init);
      var g0 := GroupByRegion(init);
      var g := GroupByRegion(zs);
      assert RegionsOf(zs) == RegionsOf(init) + {z.region} by {
        assert forall y :: y in zs <==> y in init || y == z;
      }
      forall i | 0 <= i < |g| ensures g[i].key in RegionsOf(zs) {
        if g[i].key != z.region {
          assert g[i] == g0[i];
        }
      }
    }
  }

  /** The regions of the zones, in list order, repeats included. */
  function RegionList(zs: seq<Zone>): (rs: seq<string>)
    ensures |rs| == |zs| && forall i :: 0 <= i < |zs| ==> rs[i] == zs[i].region
  {
    seq(|zs|, i requires 0 <= i < |zs| => zs[i].region)
  }

  /** The distinct strings of `rs`, each kept where it first occurs. */
  function FirstAppearances(rs: seq<string>): seq<string>
    decreases |rs|
  {
    if |rs| == 0 then []
    else
      var f := FirstAppearances(rs[..|rs| - 1]);
      if rs[|rs| - 1] in f then f else f + [rs[|rs| - 1]]
  }

  /** The groups come in the order in which their regions first appear among the zones. */
  lemma {:induction false} GroupKeysFollowFirstAppearance(zs: seq<Zone>)
    ensures Keys(GroupByRegion(zs)) == FirstAppearances(RegionList(zs))
    decreases |zs|
  {
    if |zs| > 0 {
      var init := zs[..|zs| - 1];
      var z := zs[|zs| - 1];
      GroupKeysFollowFirstAppearance(init);
      var g0 := GroupByRegion(init);
      var rs := RegionList(zs);
      assert rs[..|rs| - 1] == RegionList(init);
      assert rs[|rs| - 1] == z.region;
      var v := Get(g0, z.region).GetOr([]) + [z];
      assert GroupByRegion(zs) == Put(g0, z.region, v);
      KeysPut(g0, z.region, v);
      HasKeyListed(g0, z.region);
    }
  }

  function RegionsOf(zs: seq<Zone>): set<string> {
    set z | z in zs :: z.region
  }

  /** The zones the cards are drawn for, card by card. */
  function CardZones(cs: seq<(Zone, Mascot)>): seq<Zone>
    decreases |cs|
  {
    if |cs| == 0 then [] else [cs[0].0] + CardZones(cs[1..])
  }

  /** The cards of one region: each zone that has a mascot, with that mascot, in zone order. */
  function Cards(zones: seq<Zone>, mascots: map<int, Mascot>): (cs: seq<(Zone, Mascot)>)
    ensures forall c :: c in cs ==> c.0 in zones && c.0.id in mascots && c.1 == mascots[c.0.id]
    ensures forall z :: z in zones && z.id in mascots ==> (z, mascots[z.id]) in cs
    decreases |zones|
  {
    if |zones| == 0 then []
    else
      var rest := Cards(zones[1..], mascots);
      assert forall z :: z in zones ==> z == zones[0] || z in zones[1..];
      if zones[0].id in mascots then [(zones[0], mascots[zones[0].id])] + rest else rest
  }

  /** The cards follow the zone order. */
  lemma {:induction false} CardsKeepZoneOrder(zones: seq<Zone>, mascots: map<int, Mascot>)
    ensures SubsequenceOf(CardZones(Cards(zones, mascots)), zones)
    decreases |zones|
  {
    if |zones| > 0 {
      var rest := Cards(zones[1..], mascots);
      CardsKeepZoneOrder(zones[1..], mascots);
      if zones[0].id in mascots {
        var card := (zones[0], mascots[zones[0].id]);
        assert Cards(zones, mascots) == [card] + rest;
        assert ([card] + rest)[1..] == rest;
        var a := CardZones([card] + rest);
        assert a[0] == zones[0] && a[1..] == CardZones(rest);
      } else {
        assert Cards(zones, mascots) == rest;
      }
    }
  }

  /** One step of `Cards`, seen through the zones it draws. */
  lemma CardZonesStep(zones: seq<Zone>, mascots: map<int, Mascot>)
    requires |zones| > 0
    ensures zones[0].id in mascots ==>
              CardZones(Cards(zones, mascots)) == [zones[0]] + CardZones(Cards(zones[1..], mascots))
    ensures zones[0].id !in mascots ==>
              CardZones(Cards(zones, mascots)) == CardZones(Cards(zones[1..], mascots))
  {
    if zones[0].id in mascots {
      var rest := Cards(zones[1..], mascots);
      var card := (zones[0], mascots[zones[0].id]);
      assert Cards(zones, mascots) == [card] + rest;
      assert ([card] + rest)[1..] == rest;
    }
  }

  /** A zone with a mascot gets one card per listing of it; a zone without one gets none. */
  lemma {:induction false} CardsCountZones(zones: seq<Zone>, mascots: map<int, Mascot>, z: Zone)
    ensures z.id in mascots ==> multiset(CardZones(Cards(zones, mascots)))[z] == multiset(zones)[z]
    ensures z.id !in mascots ==> multiset(CardZones(Cards(zones, mascots)))[z] == 0
    decreases |zones|
  {
    if |zones| > 0 {
      var rest := CardZones(Cards(zones[1..], mascots));
      CardsCountZones(zones[1..], mascots, z);
      CardZonesStep(zones, mascots);
      CountHeadTail(zones, z);
      if zones[0].id in mascots {
        CountHeadTail([zones[0]] + rest, z);
        assert ([zones[0]] + rest)[1..] == rest;
      }
    }
  }

  /**
    A zone appears under its own region's header, and it gets a card there exactly when
    some mascot belongs to it; the card then shows the zone's last-listed mascot.
   */
  lemma ZoneCardUnderItsRegion(zs: seq<Zone>, ms: seq<Mascot>, z: Zone)
    requires z in zs
    ensures HasKey(GroupByRegion(zs), z.region)
    ensures var g := GroupByRegion(zs);
            var m := MascotsByZone(ms);
            var cards := Cards(g[IndexOf(g, z.region)].value, m);
            && ((exists i :: 0 <= i < |ms| && ms[i].zoneId == z.id) <==> (exists c :: c in cards && c.0 == z))
            && (forall c :: c in cards && c.0 == z ==> c.1 == m[z.id] && c.1.zoneId == z.id)
  {
    GroupByRegionSpec(zs);
    MascotsByZoneKeys(ms);
    MascotsByZoneValues(ms);
    var g := GroupByRegion(zs);
    var m := MascotsByZone(ms);
    var cards := Cards(g[IndexOf(g, z.region)].value, m);
    assert z in g[IndexOf(g, z.region)].value;
    if exists i :: 0 <= i < |ms| && ms[i].zoneId == z.id {
      assert z.id in m;
      assert (z, m[z.id]) in cards;
    }
  }
}
