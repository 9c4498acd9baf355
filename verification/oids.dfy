/** Object identifiers and the identifier constants of the agent's tree.

    An OID is a sequence of non-negative arcs.  The registry is ordered by
    numeric, arc-by-arc lexicographic comparison (a proper prefix sorts
    before its extensions), which is the order get-next walks. */
module Oids {

  type Oid = seq<nat>

  /** Strict lexicographic order on OIDs, comparing arcs as numbers. */
  predicate Less(a: Oid, b: Oid)
    decreases |a|
  {
    |b| > 0 && (|a| == 0 || a[0] < b[0] || (a[0] == b[0] && Less(a[1..], b[1..])))
  }

  lemma {:induction false} LessIrreflexive(a: Oid)
    ensures !Less(a, a)
    decreases |a|
  {
    if |a| > 0 {
      LessIrreflexive(a[1..]);
    }
  }

  lemma {:induction false} LessTransitive(a: Oid, b: Oid, c: Oid)
    requires Less(a, b) && Less(b, c)
    ensures Less(a, c)
    decreases |a|
  {
    if |a| > 0 && a[0] == b[0] && b[0] == c[0] {
      LessTransitive(a[1..], b[1..], c[1..]);
    }
  }

  /** Any two different OIDs are ordered one way or the other. */
  lemma {:induction false} LessTotal(a: Oid, b: Oid)
    requires a != b
    ensures Less(a, b) || Less(b, a)
    decreases |a|
  {
    if |a| > 0 && |b| > 0 && a[0] == b[0] {
      LessTotal(a[1..], b[1..]);
    }
  }

  /** The two directions of `Less` exclude each other. */
  lemma LessAsymmetric(a: Oid, b: Oid)
    requires Less(a, b)
    ensures !Less(b, a)
  {
    if Less(b, a) {
      LessTransitive(a, b, a);
      LessIrreflexive(a);
    }
  }

  /** `!Less(b, a)` reads "a sorts no later than b"; it is transitive. */
  lemma NotLessTransitive(a: Oid, b: Oid, c: Oid)
    requires !Less(b, a) && !Less(c, b)
    ensures !Less(c, a)
  {
    if Less(c, a) {
      if a != b {
        LessTotal(a, b);
        LessTransitive(c, a, b);
      }
    }
  }

  /** A strict step followed by a non-strict one is strict. */
  lemma LessThenNotLess(a: Oid, b: Oid, c: Oid)
    requires Less(a, b) && !Less(c, b)
    ensures Less(a, c)
  {
    if b != c {
      LessTotal(b, c);
      LessTransitive(a, b, c);
    }
  }

  // ---- MIB-II system group (section 6 of RFC 1213) ----

  /** mib-2 = iso.org.dod.internet.mgmt.1 */
  const MIB_2: Oid := [1, 3, 6, 1, 2, 1]

  /** Instance 0 of the scalar object `n` of the system group, mib-2.1.n.0. */
  function SystemScalar(n: nat): (o: Oid)
    ensures |o| == 9 && o[..7] == MIB_2 + [1] && o[7] == n && o[8] == 0
  {
    MIB_2 + [1, n, 0]
  }

  const SYS_DESCR: Oid := SystemScalar(1)
  const SYS_OBJECT_ID: Oid := SystemScalar(2)
  const SYS_UP_TIME: Oid := SystemScalar(3)
  const SYS_CONTACT: Oid := SystemScalar(4)
  const SYS_NAME: Oid := SystemScalar(5)
  const SYS_LOCATION: Oid := SystemScalar(6)
  const SYS_SERVICES: Oid := SystemScalar(7)

  // ---- Host Resources MIB (RFC 2790) ----

  /** hrSystemUptime.0 = host.1.1.0 */
  const HR_SYSTEM_UPTIME: Oid := MIB_2 + [25, 1, 1, 0]

  /** hrMemorySize = host.2.2, registered by the component without an
      instance suffix. */
  const HR_MEMORY_SIZE: Oid := MIB_2 + [25, 2, 2]

  /** Column numbers of hrStorageEntry (host.2.3.1). */
  const HR_STORAGE_INDEX: nat := 1
  const HR_STORAGE_DESCR: nat := 3
  const HR_STORAGE_ALLOCATION_UNITS: nat := 4
  const HR_STORAGE_SIZE: nat := 5
  const HR_STORAGE_USED: nat := 6

  /** The storage rows the component exposes: 1 = flash, 2 = SPI RAM. */
  const FLASH_ROW: nat := 1
  const SPI_RAM_ROW: nat := 2

  /** One cell of hrStorageTable: hrStorageEntry.column.row */
  function HrStorageCell(column: nat, row: nat): (o: Oid)
    ensures |o| == 12 && o[..10] == MIB_2 + [25, 2, 3, 1] && o[10] == column && o[11] == row
  {
    MIB_2 + [25, 2, 3, 1, column, row]
  }

  /** hrStorageSize and hrStorageUsed of the SPI RAM row. */
  const PSRAM_SIZE_OID: Oid := HrStorageCell(HR_STORAGE_SIZE, SPI_RAM_ROW)
  const PSRAM_USED_OID: Oid := HrStorageCell(HR_STORAGE_USED, SPI_RAM_ROW)

  // ---- vendor subtree, CUSTOM_OID ----

  /** The vendor root `.1.3.9999.` under which all device-specific objects live. */
  const CUSTOM: Oid := [1, 3, 9999]

  /** Group arcs below CUSTOM. */
  const CHIP_GROUP: nat := 2
  const WIFI_GROUP: nat := 4
  const SENSOR_GROUP: nat := 10
  const ESP32_GROUP: nat := 32
  const ESP8266_GROUP: nat := 8266

  /** Instance 0 of item `item` of vendor group `group`: CUSTOM.group.item.0 */
  function CustomScalar(group: nat, item: nat): (o: Oid)
    ensures |o| == 6 && o[..3] == CUSTOM && o[3] == group && o[4] == item && o[5] == 0
  {
    CUSTOM + [group, item, 0]
  }

  const BSSID_OID: Oid := CustomScalar(WIFI_GROUP, 2)
  const IP_ADDRESS_OID: Oid := CustomScalar(WIFI_GROUP, 4)
  const TEMPERATURE_OID: Oid := CustomScalar(SENSOR_GROUP, 1)
  const HUMIDITY_OID: Oid := CustomScalar(SENSOR_GROUP, 2)
}
