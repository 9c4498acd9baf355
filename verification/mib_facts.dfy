/** What the MIB built by `setup()` is guaranteed to look like, for every
    board family and every sensor configuration: unique identifiers, values
    of the declared kinds, sensor rows exactly when configured, the same
    tree outside the board's heap group on both families, and the
    board-specific fixed values. */
module MibFacts {
  import opened Base
  import opened Oids
  import opened Mib
  import Adapters
  import Component

  /** The identifiers of a list of entries, in order. */
  function OidsOf(s: seq<Entry>): (r: seq<Oid>)
    ensures |r| == |s| && forall i :: 0 <= i < |s| ==> r[i] == s[i].oid
  {
    seq(|s|, i requires 0 <= i < |s| => s[i].oid)
  }

  /** The identifier of a registered entry is among the registered ones. */
  lemma InOidsOf(s: seq<Entry>, e: Entry)
    requires e in s
    ensures e.oid in OidsOf(s)
  {
    var i :| 0 <= i < |s| && s[i] == e;
    assert OidsOf(s)[i] == e.oid;
  }

  /** No identifier occurs twice. */
  ghost predicate Distinct(s: seq<Oid>) {
    forall i, j :: 0 <= i < j < |s| ==> s[i] != s[j]
  }

  lemma OidsOfAppend(a: seq<Entry>, b: seq<Entry>)
    ensures OidsOf(a + b) == OidsOf(a) + OidsOf(b)
  {
  }

  /** Every identifier of `s` is long enough to have an arc at `pos`, and
      that arc is one of `arcs`. */
  ghost predicate ArcIn(s: seq<Oid>, pos: nat, arcs: set<nat>) {
    forall i :: 0 <= i < |s| ==> |s[i]| > pos && s[i][pos] in arcs
  }

  /** Two duplicate-free lists that differ at arc `pos` join into a
      duplicate-free list. */
  lemma DistinctJoin(a: seq<Oid>, b: seq<Oid>, pos: nat, arcsA: set<nat>, arcsB: set<nat>)
    requires Distinct(a) && Distinct(b)
    requires ArcIn(a, pos, arcsA) && ArcIn(b, pos, arcsB) && arcsA !! arcsB
    ensures Distinct(a + b)
    ensures ArcIn(a + b, pos, arcsA + arcsB)
  {
    forall i, j | 0 <= i < j < |a + b|
      ensures (a + b)[i] != (a + b)[j]
    {
      if i < |a| <= j {
        assert (a + b)[i][pos] in arcsA && (a + b)[j][pos] in arcsB;
      }
    }
  }

  /** The registrations against the standard MIB-II and Host Resources
      subtrees, which do not depend on the sensors. */
  function StandardMib(board: Board, config: Component.Config, description: string): seq<Entry> {
    UptimeMib() + SystemMib(board, description, config.contact, config.location) + StorageMib(board)
  }

  /** The registrations under the vendor root. */
  function VendorMib(board: Board, config: Component.Config): seq<Entry> {
    HeapMib(board) + ChipMib(board) + WifiMib() + SensorMib(config.temperature.Some?, config.humidity.Some?)
  }

  lemma BuildMibSplit(board: Board, config: Component.Config, description: string)
    ensures BuildMib(board, config, description) == StandardMib(board, config, description) + VendorMib(board, config)
  {
  }

  /** A duplicate-free list may be prefixed by a duplicate-free list that
      shares no identifier with it. */
  lemma DistinctPrepend(a: seq<Oid>, t: seq<Oid>)
    requires Distinct(a) && Distinct(t)
    requires forall i :: 0 <= i < |a| ==> a[i] !in t
    ensures Distinct(a + t)
  {
    forall i, j | 0 <= i < j < |a + t|
      ensures (a + t)[i] != (a + t)[j]
    {
      if i < |a| <= j {
        assert (a + t)[j] == t[j - |a|];
      }
    }
  }

  /** The system group's identifiers differ from each other, all lie under
      MIB-II's system arc 1, and none uses sysUpTime's arc 3. */
  lemma SystemDistinct(board: Board, description: string, contact: string, location: string)
    ensures Distinct(OidsOf(SystemMib(board, description, contact, location)))
    ensures ArcIn(OidsOf(SystemMib(board, description, contact, location)), 6, {1})
    ensures ArcIn(OidsOf(SystemMib(board, description, contact, location)), 7, {1, 2, 4, 5, 6, 7})
  {
  }

  /** The storage group's identifiers differ from each other and all lie
      under hrStorage, 25.2. */
  lemma StorageDistinct(board: Board)
    ensures Distinct(OidsOf(StorageMib(board)))
    ensures ArcIn(OidsOf(StorageMib(board)), 6, {25}) && ArcIn(OidsOf(StorageMib(board)), 7, {2})
  {
    var flash, spi := RowCells(FLASH_ROW), RowCells(SPI_RAM_ROW);
    assert OidsOf(StorageMib(board)) == flash + spi + [HR_MEMORY_SIZE];
    RowCellsDistinct(FLASH_ROW);
    RowCellsDistinct(SPI_RAM_ROW);
    DistinctJoin(flash, spi, 11, {FLASH_ROW}, {SPI_RAM_ROW});
    ArcInAppend(flash, spi, 6, {25});
    ArcInAppend(flash, spi, 7, {2});
    ArcInAppend(flash, spi, 8, {3});
    DistinctJoin(flash + spi, [HR_MEMORY_SIZE], 8, {3}, {2});
    ArcInAppend(flash + spi, [HR_MEMORY_SIZE], 6, {25});
    ArcInAppend(flash + spi, [HR_MEMORY_SIZE], 7, {2});
  }

  lemma ArcInAppend(a: seq<Oid>, b: seq<Oid>, pos: nat, arcs: set<nat>)
    requires ArcIn(a, pos, arcs) && ArcIn(b, pos, arcs)
    ensures ArcIn(a + b, pos, arcs)
  {
    forall i | 0 <= i < |a + b|
      ensures |(a + b)[i]| > pos && (a + b)[i][pos] in arcs
    {
      if i >= |a| {
        assert (a + b)[i] == b[i - |a|];
      }
    }
  }

  /** The hrStorageTable columns `setup_storage_mib_` fills, in order. */
  const STORAGE_COLUMNS: seq<nat> :=
    [HR_STORAGE_INDEX, HR_STORAGE_DESCR, HR_STORAGE_ALLOCATION_UNITS, HR_STORAGE_SIZE, HR_STORAGE_USED]

  /** The five cells registered for one hrStorageTable row. */
  function RowCells(row: nat): (r: seq<Oid>)
    ensures |r| == 5
  {
    seq(5, i requires 0 <= i < 5 => HrStorageCell(STORAGE_COLUMNS[i], row))
  }

  /** The cells of one row are distinct, since their columns are. */
  lemma RowCellsDistinct(row: nat)
    ensures Distinct(RowCells(row))
    ensures ArcIn(RowCells(row), 6, {25}) && ArcIn(RowCells(row), 7, {2}) && ArcIn(RowCells(row), 8, {3})
    ensures ArcIn(RowCells(row), 11, {row})
  {
    forall i, j | 0 <= i < j < 5
      ensures RowCells(row)[i] != RowCells(row)[j]
    {
      assert RowCells(row)[i][10] == STORAGE_COLUMNS[i];
      assert RowCells(row)[j][10] == STORAGE_COLUMNS[j];
    }
  }

  /** The identifiers CUSTOM.group.1.0 up to CUSTOM.group.n.0, which a
      vendor group registers in this order. */
  function GroupItems(group: nat, n: nat): (r: seq<Oid>)
    ensures |r| == n
  {
    seq(n, i requires 0 <= i < n => CustomScalar(group, i + 1))
  }

  /** The items of a vendor group are distinct, since their item arcs are. */
  lemma GroupItemsDistinct(group: nat, n: nat)
    ensures Distinct(GroupItems(group, n))
    ensures ArcIn(GroupItems(group, n), 2, {9999}) && ArcIn(GroupItems(group, n), 3, {group})
  {
    forall i, j | 0 <= i < j < n
      ensures GroupItems(group, n)[i] != GroupItems(group, n)[j]
    {
      assert GroupItems(group, n)[i][4] == i + 1;
      assert GroupItems(group, n)[j][4] == j + 1;
    }
  }

  lemma StandardDistinct(board: Board, config: Component.Config, description: string)
    ensures Distinct(OidsOf(StandardMib(board, config, description)))
  {
    var up, sys, sto := UptimeMib(), SystemMib(board, description, config.contact, config.location), StorageMib(board);
    OidsOfAppend(up + sys, sto);
    OidsOfAppend(up, sys);
    SystemDistinct(board, description, config.contact, config.location);
    StorageDistinct(board);
    DistinctJoin(OidsOf(sys), OidsOf(sto), 6, {1}, {25});
    NotInByArc(OidsOf(sys), 7, {1, 2, 4, 5, 6, 7}, SYS_UP_TIME);
    NotInByArc(OidsOf(sto), 6, {25}, SYS_UP_TIME);
    NotInByArc(OidsOf(sys), 6, {1}, HR_SYSTEM_UPTIME);
    NotInByArc(OidsOf(sto), 7, {2}, HR_SYSTEM_UPTIME);
    assert OidsOf(up) == [SYS_UP_TIME, HR_SYSTEM_UPTIME];
    DistinctPrepend(OidsOf(up), OidsOf(sys) + OidsOf(sto));
    assert OidsOf(up) + OidsOf(sys) + OidsOf(sto) == OidsOf(up) + (OidsOf(sys) + OidsOf(sto));
  }

  lemma StandardUnderMib2(board: Board, config: Component.Config, description: string)
    ensures ArcIn(OidsOf(StandardMib(board, config, description)), 2, {6})
  {
  }

  lemma HeapDistinct(board: Board)
    ensures Distinct(OidsOf(HeapMib(board)))
    ensures ArcIn(OidsOf(HeapMib(board)), 2, {9999}) && ArcIn(OidsOf(HeapMib(board)), 3, {BoardArc(board)})
  {
    assert OidsOf(HeapMib(board)) == GroupItems(BoardArc(board), |HeapMib(board)|);
    GroupItemsDistinct(BoardArc(board), |HeapMib(board)|);
  }

  lemma ChipDistinct(board: Board)
    ensures Distinct(OidsOf(ChipMib(board)))
    ensures ArcIn(OidsOf(ChipMib(board)), 2, {9999}) && ArcIn(OidsOf(ChipMib(board)), 3, {CHIP_GROUP})
  {
    assert OidsOf(ChipMib(board)) == GroupItems(CHIP_GROUP, 5);
    GroupItemsDistinct(CHIP_GROUP, 5);
  }

  lemma WifiDistinct()
    ensures Distinct(OidsOf(WifiMib()))
    ensures ArcIn(OidsOf(WifiMib()), 2, {9999}) && ArcIn(OidsOf(WifiMib()), 3, {WIFI_GROUP})
  {
    assert OidsOf(WifiMib()) == GroupItems(WIFI_GROUP, 4);
    GroupItemsDistinct(WIFI_GROUP, 4);
  }

  lemma SensorDistinct(hasTemperature: bool, hasHumidity: bool)
    ensures Distinct(OidsOf(SensorMib(hasTemperature, hasHumidity)))
    ensures ArcIn(OidsOf(SensorMib(hasTemperature, hasHumidity)), 2, {9999}) && ArcIn(OidsOf(SensorMib(hasTemperature, hasHumidity)), 3, {SENSOR_GROUP})
  {
  }

  lemma VendorDistinct(board: Board, config: Component.Config)
    ensures Distinct(OidsOf(VendorMib(board, config)))
    ensures ArcIn(OidsOf(VendorMib(board, config)), 2, {9999})
  {
    var heap, chip, wifi := HeapMib(board), ChipMib(board), WifiMib();
    var sensors := SensorMib(config.temperature.Some?, config.humidity.Some?);
    HeapDistinct(board);
    ChipDistinct(board);
    WifiDistinct();
    SensorDistinct(config.temperature.Some?, config.humidity.Some?);
    var arc := BoardArc(board);
    OidsOfAppend(heap, chip);
    DistinctJoin(OidsOf(heap), OidsOf(chip), 3, {arc}, {CHIP_GROUP});
    OidsOfAppend(heap + chip, wifi);
    DistinctJoin(OidsOf(heap + chip), OidsOf(wifi), 3, {arc, CHIP_GROUP}, {WIFI_GROUP});
    OidsOfAppend(heap + chip + wifi, sensors);
    DistinctJoin(OidsOf(heap + chip + wifi), OidsOf(sensors), 3, {arc, CHIP_GROUP, WIFI_GROUP}, {SENSOR_GROUP});
    assert ArcIn(OidsOf(VendorMib(board, config)), 2, {9999});
  }

  /** Every identifier `setup()` registers is registered once, whatever the
      board family and sensor configuration. */
  lemma BuildMibDistinct(board: Board, config: Component.Config, description: string)
    ensures Distinct(OidsOf(BuildMib(board, config, description)))
  {
    var standard, vendor := StandardMib(board, config, description), VendorMib(board, config);
    StandardDistinct(board, config, description);
    StandardUnderMib2(board, config, description);
    VendorDistinct(board, config);
    BuildMibSplit(board, config, description);
    OidsOfAppend(standard, vendor);
    DistinctJoin(OidsOf(standard), OidsOf(vendor), 2, {6}, {9999});
  }

  /** Two entries registered at the same identifier of a duplicate-free
      registry are the same entry, so each fact below about "the entry at
      OID x" names the one value served there. */
  lemma RegisteredEntryUnique(s: seq<Entry>, e1: Entry, e2: Entry)
    requires Distinct(OidsOf(s))
    requires e1 in s && e2 in s && e1.oid == e2.oid
    ensures e1 == e2
  {
    var i :| 0 <= i < |s| && s[i] == e1;
    var j :| 0 <= j < |s| && s[j] == e2;
  }

  ghost predicate AllWellTyped(s: seq<Entry>) {
    forall i :: 0 <= i < |s| ==> WellTyped(s[i])
  }

  lemma WellTypedAppend(a: seq<Entry>, b: seq<Entry>)
    requires AllWellTyped(a) && AllWellTyped(b)
    ensures AllWellTyped(a + b)
  {
  }

  lemma SystemWellTyped(board: Board, description: string, contact: string, location: string)
    ensures AllWellTyped(UptimeMib()) && AllWellTyped(SystemMib(board, description, contact, location))
  {
  }

  lemma StorageWellTyped(board: Board)
    ensures AllWellTyped(StorageMib(board))
  {
  }

  lemma HeapWellTyped(board: Board)
    ensures AllWellTyped(HeapMib(board))
  {
  }

  lemma ChipWellTyped(board: Board)
    ensures AllWellTyped(ChipMib(board))
  {
  }

  lemma WifiWellTyped()
    ensures AllWellTyped(WifiMib())
  {
  }

  lemma SensorWellTyped(hasTemperature: bool, hasHumidity: bool)
    ensures AllWellTyped(SensorMib(hasTemperature, hasHumidity))
  {
  }

  lemma VendorGroupsWellTyped(board: Board, hasTemperature: bool, hasHumidity: bool)
    ensures AllWellTyped(HeapMib(board)) && AllWellTyped(ChipMib(board)) && AllWellTyped(WifiMib())
    ensures AllWellTyped(SensorMib(hasTemperature, hasHumidity))
  {
    HeapWellTyped(board);
    ChipWellTyped(board);
    WifiWellTyped();
    SensorWellTyped(hasTemperature, hasHumidity);
  }

  lemma GroupsWellTyped(board: Board, config: Component.Config, description: string)
    ensures AllWellTyped(StandardMib(board, config, description))
    ensures AllWellTyped(HeapMib(board)) && AllWellTyped(ChipMib(board)) && AllWellTyped(WifiMib())
    ensures AllWellTyped(SensorMib(config.temperature.Some?, config.humidity.Some?))
  {
    var uptime, system := UptimeMib(), SystemMib(board, description, config.contact, config.location);
    SystemWellTyped(board, description, config.contact, config.location);
    StorageWellTyped(board);
    VendorGroupsWellTyped(board, config.temperature.Some?, config.humidity.Some?);
    WellTypedAppend(uptime, system);
    WellTypedAppend(uptime + system, StorageMib(board));
  }

  /** Every registration pairs its identifier with a value source of the
      declared kind. */
  lemma BuildMibWellTyped(board: Board, config: Component.Config, description: string)
    ensures forall e :: e in BuildMib(board, config, description) ==> WellTyped(e)
  {
    var standard := StandardMib(board, config, description);
    var heap, chip, wifi := HeapMib(board), ChipMib(board), WifiMib();
    var sensors := SensorMib(config.temperature.Some?, config.humidity.Some?);
    GroupsWellTyped(board, config, description);
    WellTypedAppend(heap, chip);
    WellTypedAppend(heap + chip, wifi);
    WellTypedAppend(heap + chip + wifi, sensors);
    WellTypedAppend(standard, heap + chip + wifi + sensors);
    BuildMibSplit(board, config, description);
    assert VendorMib(board, config) == heap + chip + wifi + sensors;
  }

  lemma NotInByArc(s: seq<Oid>, pos: nat, arcs: set<nat>, o: Oid)
    requires ArcIn(s, pos, arcs)
    requires |o| > pos && o[pos] !in arcs
    ensures o !in s
  {
  }

  /** What `setup()` registers before the sensor group. */
  function PreSensorMib(board: Board, config: Component.Config, description: string): seq<Entry> {
    StandardMib(board, config, description) + HeapMib(board) + ChipMib(board) + WifiMib()
  }

  /** No group registered before the sensor group uses a sensor row. */
  lemma SensorOidsNotPreSensor(board: Board, config: Component.Config, description: string)
    ensures TEMPERATURE_OID !in OidsOf(PreSensorMib(board, config, description))
    ensures HUMIDITY_OID !in OidsOf(PreSensorMib(board, config, description))
  {
    var heap, chip, wifi := HeapMib(board), ChipMib(board), WifiMib();
    var standard := StandardMib(board, config, description);
    OidsOfAppend(standard + heap + chip, wifi);
    OidsOfAppend(standard + heap, chip);
    OidsOfAppend(standard, heap);
    StandardUnderMib2(board, config, description);
    HeapDistinct(board);
    ChipDistinct(board);
    WifiDistinct();
    forall o | o == TEMPERATURE_OID || o == HUMIDITY_OID
      ensures o !in OidsOf(PreSensorMib(board, config, description))
    {
      NotInByArc(OidsOf(standard), 2, {6}, o);
      NotInByArc(OidsOf(heap), 3, {BoardArc(board)}, o);
      NotInByArc(OidsOf(chip), 3, {CHIP_GROUP}, o);
      NotInByArc(OidsOf(wifi), 3, {WIFI_GROUP}, o);
    }
  }

  /** The temperature row 1.3.9999.10.1.0 is registered exactly when a
      temperature sensor is configured, and the humidity row
      1.3.9999.10.2.0 exactly when a humidity sensor is. */
  lemma SensorRowsExactlyWhenConfigured(board: Board, config: Component.Config, description: string)
    ensures TEMPERATURE_OID in OidsOf(BuildMib(board, config, description)) <==> config.temperature.Some?
    ensures HUMIDITY_OID in OidsOf(BuildMib(board, config, description)) <==> config.humidity.Some?
  {
    var pre := PreSensorMib(board, config, description);
    var sensors := SensorMib(config.temperature.Some?, config.humidity.Some?);
    assert BuildMib(board, config, description) == pre + sensors;
    OidsOfAppend(pre, sensors);
    SensorOidsNotPreSensor(board, config, description);
    SensorRows(config.temperature.Some?, config.humidity.Some?);
  }

  lemma SensorRows(hasTemperature: bool, hasHumidity: bool)
    ensures TEMPERATURE_OID in OidsOf(SensorMib(hasTemperature, hasHumidity)) <==> hasTemperature
    ensures HUMIDITY_OID in OidsOf(SensorMib(hasTemperature, hasHumidity)) <==> hasHumidity
  {
    var t, h := TEMPERATURE_OID, HUMIDITY_OID;
    assert t != h by {
      assert t[4] != h[4];
    }
    if hasTemperature && hasHumidity {
      assert OidsOf(SensorMib(hasTemperature, hasHumidity)) == [t, h];
    } else if hasTemperature {
      assert OidsOf(SensorMib(hasTemperature, hasHumidity)) == [t];
    } else if hasHumidity {
      assert OidsOf(SensorMib(hasTemperature, hasHumidity)) == [h];
    } else {
      assert OidsOf(SensorMib(hasTemperature, hasHumidity)) == [];
    }
  }

  // Each `setup_*_mib_` group registers only under its own subtree.

  lemma SystemSubtree(board: Board, description: string, contact: string, location: string)
    ensures InSubtree(SystemMib(board, description, contact, location), MIB_2 + [1])
  {
  }

  lemma StorageSubtree(board: Board)
    ensures InSubtree(StorageMib(board), MIB_2 + [25, 2])
  {
  }

  lemma HeapSubtree(board: Board)
    ensures InSubtree(HeapMib(board), CUSTOM + [BoardArc(board)])
  {
  }

  lemma ChipSubtree(board: Board)
    ensures InSubtree(ChipMib(board), CUSTOM + [CHIP_GROUP])
  {
  }

  lemma WifiSubtree()
    ensures InSubtree(WifiMib(), CUSTOM + [WIFI_GROUP])
  {
  }

  lemma SensorSubtree(hasTemperature: bool, hasHumidity: bool)
    ensures InSubtree(SensorMib(hasTemperature, hasHumidity), CUSTOM + [SENSOR_GROUP])
  {
  }

  /** The storage subtree has the same identifiers, in the same order, on
      both board families: a board without SPI RAM still has its rows. */
  lemma StorageSameOnBothBoards(b1: Board, b2: Board)
    ensures OidsOf(StorageMib(b1)) == OidsOf(StorageMib(b2))
  {
  }

  /** The board's own heap-statistics group, 1.3.9999.32 or 1.3.9999.8266. */
  predicate InHeapGroup(o: Oid) {
    |o| > 3 && o[..3] == CUSTOM && (o[3] == ESP32_GROUP || o[3] == ESP8266_GROUP)
  }

  lemma HeapInGroup(board: Board)
    ensures forall i :: 0 <= i < |OidsOf(HeapMib(board))| ==> InHeapGroup(OidsOf(HeapMib(board))[i])
  {
  }

  /** The registrations that follow the heap group. */
  function TailMib(board: Board, config: Component.Config): seq<Entry> {
    ChipMib(board) + WifiMib() + SensorMib(config.temperature.Some?, config.humidity.Some?)
  }

  /** The seven groups of `setup()`, regrouped around the fourth. */
  lemma Regroup(u: seq<Entry>, sy: seq<Entry>, st: seq<Entry>, h: seq<Entry>, c: seq<Entry>, w: seq<Entry>, x: seq<Entry>)
    ensures u + sy + st + h + c + w + x == (u + sy + st) + h + (c + w + x)
  {
  }

  lemma BuildMibThreeParts(board: Board, config: Component.Config, description: string)
    ensures OidsOf(BuildMib(board, config, description)) ==
              OidsOf(StandardMib(board, config, description)) + OidsOf(HeapMib(board)) + OidsOf(TailMib(board, config))
  {
    var standard, heap, tail := StandardMib(board, config, description), HeapMib(board), TailMib(board, config);
    Regroup(UptimeMib(), SystemMib(board, description, config.contact, config.location), StorageMib(board),
            heap, ChipMib(board), WifiMib(), SensorMib(config.temperature.Some?, config.humidity.Some?));
    OidsOfAppend(standard + heap, tail);
    OidsOfAppend(standard, heap);
  }

  lemma TailOidsFixed(b1: Board, b2: Board, c1: Component.Config, c2: Component.Config)
    requires c1.temperature.Some? == c2.temperature.Some? && c1.humidity.Some? == c2.humidity.Some?
    ensures OidsOf(TailMib(b1, c1)) == OidsOf(TailMib(b2, c2))
  {
  }

  /** Replacing a middle part that avoids `o` keeps `o`'s membership. */
  lemma MembershipOutsideMiddle(s: seq<Oid>, m1: seq<Oid>, m2: seq<Oid>, t: seq<Oid>, o: Oid)
    requires o !in m1 && o !in m2
    ensures o in s + m1 + t <==> o in s + m2 + t
  {
    assert o in s + m1 + t <==> o in s || o in m1 || o in t;
    assert o in s + m2 + t <==> o in s || o in m2 || o in t;
  }

  /** Outside the heap-statistics group the tree is the same on both board
      families; it depends neither on the board nor on the configured
      strings, only on which sensors are present. */
  lemma SameTreeOutsideHeapGroup(b1: Board, b2: Board, c1: Component.Config, c2: Component.Config, d1: string, d2: string)
    requires c1.temperature.Some? == c2.temperature.Some? && c1.humidity.Some? == c2.humidity.Some?
    ensures forall o :: !InHeapGroup(o) ==>
              (o in OidsOf(BuildMib(b1, c1, d1)) <==> o in OidsOf(BuildMib(b2, c2, d2)))
  {
    var s := OidsOf(StandardMib(b1, c1, d1));
    var h1, h2 := OidsOf(HeapMib(b1)), OidsOf(HeapMib(b2));
    var t := OidsOf(TailMib(b1, c1));
    BuildMibThreeParts(b1, c1, d1);
    BuildMibThreeParts(b2, c2, d2);
    StandardOidsFixed(b1, b2, c1, c2, d1, d2);
    TailOidsFixed(b1, b2, c1, c2);
    HeapInGroup(b1);
    HeapInGroup(b2);
    forall o | !InHeapGroup(o)
      ensures o in s + h1 + t <==> o in s + h2 + t
    {
      MembershipOutsideMiddle(s, h1, h2, t, o);
    }
  }

  lemma StandardOidsFixed(b1: Board, b2: Board, c1: Component.Config, c2: Component.Config, d1: string, d2: string)
    ensures OidsOf(StandardMib(b1, c1, d1)) == OidsOf(StandardMib(b2, c2, d2))
  {
  }

  /** The fixed values that differ between the board families, the
      configured strings, and the sysName binding, as registered. */
  /** Whatever a group registers is in the concatenation of the groups. */
  lemma GroupsInBuildMib(u: seq<Entry>, sy: seq<Entry>, st: seq<Entry>, h: seq<Entry>, c: seq<Entry>, w: seq<Entry>, x: seq<Entry>)
    ensures forall e :: e in sy ==> e in u + sy + st + h + c + w + x
    ensures forall e :: e in st ==> e in u + sy + st + h + c + w + x
    ensures forall e :: e in c ==> e in u + sy + st + h + c + w + x
  {
  }

  lemma BoardSpecificValues(board: Board, config: Component.Config, description: string)
    ensures OidHandler(SYS_OBJECT_ID, CUSTOM + [BoardArc(board)]) in BuildMib(board, config, description)
    ensures IntegerHandler(CustomScalar(CHIP_GROUP, 1), BoardArc(board)) in BuildMib(board, config, description)
    ensures IntegerHandler(HR_MEMORY_SIZE, MemorySizeKb(board)) in BuildMib(board, config, description)
    ensures board.Esp32? ==>
              && DynamicIntegerHandler(PSRAM_SIZE_OID, PsramTotal) in BuildMib(board, config, description)
              && DynamicIntegerHandler(PSRAM_USED_OID, PsramUsed) in BuildMib(board, config, description)
    ensures board.Esp8266? ==>
              && IntegerHandler(PSRAM_SIZE_OID, 0) in BuildMib(board, config, description)
              && IntegerHandler(PSRAM_USED_OID, 0) in BuildMib(board, config, description)
              && IntegerHandler(CustomScalar(CHIP_GROUP, 4), 1) in BuildMib(board, config, description)
              && IntegerHandler(CustomScalar(CHIP_GROUP, 5), 0) in BuildMib(board, config, description)
    ensures StaticStringHandler(SYS_CONTACT, config.contact) in BuildMib(board, config, description)
    ensures StaticStringHandler(SYS_LOCATION, config.location) in BuildMib(board, config, description)
    ensures IntegerHandler(SYS_SERVICES, 64) in BuildMib(board, config, description)
    ensures DynamicStringHandler(SYS_NAME, SysName) in BuildMib(board, config, description)
  {
    var u, sys, sto := UptimeMib(), SystemMib(board, description, config.contact, config.location), StorageMib(board);
    var heap, chip, wifi := HeapMib(board), ChipMib(board), WifiMib();
    var sensors := SensorMib(config.temperature.Some?, config.humidity.Some?);
    assert OidHandler(SYS_OBJECT_ID, CUSTOM + [BoardArc(board)]) in sys;
    assert IntegerHandler(CustomScalar(CHIP_GROUP, 1), BoardArc(board)) in chip;
    assert IntegerHandler(HR_MEMORY_SIZE, MemorySizeKb(board)) in sto;
    assert PsramSizeEntry(board) in sto && PsramUsedEntry(board) in sto;
    assert board.Esp8266? ==> IntegerHandler(CustomScalar(CHIP_GROUP, 4), 1) in chip && IntegerHandler(CustomScalar(CHIP_GROUP, 5), 0) in chip;
    assert StaticStringHandler(SYS_CONTACT, config.contact) in sys && StaticStringHandler(SYS_LOCATION, config.location) in sys;
    assert IntegerHandler(SYS_SERVICES, 64) in sys && DynamicStringHandler(SYS_NAME, SysName) in sys;
    GroupsInBuildMib(u, sys, sto, heap, chip, wifi, sensors);
  }

  /** sysDescr holds at most the 127 characters the 128-byte buffer keeps:
      the whole description when it fits, its first 127 characters when it
      does not. */
  lemma DescriptionFitsBuffer(board: Board, config: Component.Config, description: string)
    ensures exists t :: StaticStringHandler(SYS_DESCR, t) in BuildMib(board, config, description) &&
                        |t| <= 127 && t <= description && (|description| <= 127 ==> t == description) &&
                        (|description| > 127 ==> t == description[..127])
  {
    var t := Truncate(description, DESCRIPTION_CAPACITY);
    assert StaticStringHandler(SYS_DESCR, t) in BuildMib(board, config, description);
  }
}
