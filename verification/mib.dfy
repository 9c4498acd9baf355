/** The MIB the component registers in `setup()`: which identifiers, with
    which declared kind, bound to a fixed value or to a live provider.

    Each `setup_*_mib_` function of the component is one function here
    returning the entries it registers, in registration order; `BuildMib`
    concatenates them in the order `setup()` calls them.  Conditional
    compilation on the board family is a case split on `Board`. */
module Mib {
  import opened Base
  import opened Oids
  import Adapters
  import Component

  /** The two board families.  On ESP32 the chip model code is part of the
      board identity: `hrMemorySize` is computed from it once, at setup. */
  datatype Board = Esp32(chipModel: int) | Esp8266

  /** The kinds of value the agent serves. */
  datatype Kind = Integer | OctetString | ObjectId | Timestamp

  datatype Value =
    | IntVal(i: int)
    | StrVal(s: string)
    | OidVal(o: Oid)
    | TicksVal(t: uint32)

  function KindOf(v: Value): Kind {
    match v
    case IntVal(_) => Integer
    case StrVal(_) => OctetString
    case OidVal(_) => ObjectId
    case TicksVal(_) => Timestamp
  }

  /** The live readings a dynamic entry can be bound to, one per lambda or
      callback registered by the component. */
  datatype Provider =
    | NetUptime | Uptime | SysName
    | FlashChipSize | SketchSize | PsramTotal | PsramUsed
    | HeapSize | FreeHeap | MinFreeHeap | MaxAllocHeap
    | HeapFragmentation | MaxFreeBlockSize
    | CpuFreqMHz | ChipModelName | CoreVersion | ChipCores | ChipRevision
    | WifiRssi | WifiBssid | WifiSsid | WifiIpAddress
    | Temperature | Humidity

  /** The kind of value each provider returns. */
  function ProviderKind(p: Provider): Kind {
    match p
    case NetUptime | Uptime => Timestamp
    case SysName | ChipModelName | CoreVersion | WifiBssid | WifiSsid | WifiIpAddress => OctetString
    case _ => Integer
  }

  datatype Source = Static(value: Value) | Dynamic(provider: Provider)

  datatype Entry = Entry(oid: Oid, kind: Kind, src: Source)

  /** The value an entry yields has the kind it was registered with. */
  predicate WellTyped(e: Entry) {
    match e.src
    case Static(v) => KindOf(v) == e.kind
    case Dynamic(p) => ProviderKind(p) == e.kind
  }

  // ---- the agent's registration calls ----

  function IntegerHandler(oid: Oid, v: int): Entry { Entry(oid, Integer, Static(IntVal(v))) }
  function DynamicIntegerHandler(oid: Oid, p: Provider): Entry { Entry(oid, Integer, Dynamic(p)) }
  function StaticStringHandler(oid: Oid, s: string): Entry { Entry(oid, OctetString, Static(StrVal(s))) }
  function DynamicStringHandler(oid: Oid, p: Provider): Entry { Entry(oid, OctetString, Dynamic(p)) }
  function OidHandler(oid: Oid, o: Oid): Entry { Entry(oid, ObjectId, Static(OidVal(o))) }
  function DynamicTimestampHandler(oid: Oid, p: Provider): Entry { Entry(oid, Timestamp, Dynamic(p)) }

  // ---- the groups, in the order setup() registers them ----

  /** The vendor group arc of the board's heap statistics, also the last arc
      of its sysObjectID. */
  function BoardArc(board: Board): nat {
    if board.Esp32? then ESP32_GROUP else ESP8266_GROUP
  }

  /** The text `snprintf` leaves in the 128-byte description buffer. */
  const DESCRIPTION_CAPACITY: nat := 127

  function Truncate(s: string, n: nat): (r: string)
    ensures |r| <= n && r <= s
    ensures |s| <= n ==> r == s
    ensures |s| > n ==> r == s[..n]
  {
    if |s| <= n then s else s[..n]
  }

  /** Every entry of `s` lies in the subtree rooted at `root`. */
  predicate InSubtree(s: seq<Entry>, root: Oid) {
    forall i :: 0 <= i < |s| ==> root <= s[i].oid
  }

  /** The two uptime objects registered first in `setup()`: both are live
      TimeTicks readings. */
  function UptimeMib(): (r: seq<Entry>)
    ensures |r| == 2
    ensures forall i :: 0 <= i < |r| ==> r[i].kind == Timestamp && r[i].src.Dynamic?
  {
    [ DynamicTimestampHandler(SYS_UP_TIME, NetUptime),
      DynamicTimestampHandler(HR_SYSTEM_UPTIME, Uptime) ]
  }

  /** `setup_system_mib_`.  `description` is the build-time text the
      description format expands to. */
  function SystemMib(board: Board, description: string, contact: string, location: string): (r: seq<Entry>)
    ensures |r| == 6
  {
    [ StaticStringHandler(SYS_DESCR, Truncate(description, DESCRIPTION_CAPACITY)),
      DynamicStringHandler(SYS_NAME, SysName),
      IntegerHandler(SYS_SERVICES, 64),
      OidHandler(SYS_OBJECT_ID, CUSTOM + [BoardArc(board)]),
      StaticStringHandler(SYS_CONTACT, contact),
      StaticStringHandler(SYS_LOCATION, location) ]
  }

  /** `setup_storage_mib_`: the flash and SPI RAM rows of hrStorageTable and
      hrMemorySize. */
  function StorageMib(board: Board): (r: seq<Entry>)
    ensures |r| == 11
  {
    [ IntegerHandler(HrStorageCell(HR_STORAGE_INDEX, FLASH_ROW), 1),
      StaticStringHandler(HrStorageCell(HR_STORAGE_DESCR, FLASH_ROW), "FLASH"),
      IntegerHandler(HrStorageCell(HR_STORAGE_ALLOCATION_UNITS, FLASH_ROW), 1),
      DynamicIntegerHandler(HrStorageCell(HR_STORAGE_SIZE, FLASH_ROW), FlashChipSize),
      DynamicIntegerHandler(HrStorageCell(HR_STORAGE_USED, FLASH_ROW), SketchSize),
      IntegerHandler(HrStorageCell(HR_STORAGE_INDEX, SPI_RAM_ROW), 2),
      StaticStringHandler(HrStorageCell(HR_STORAGE_DESCR, SPI_RAM_ROW), "SPI RAM"),
      IntegerHandler(HrStorageCell(HR_STORAGE_ALLOCATION_UNITS, SPI_RAM_ROW), 1) ] +
    [ PsramSizeEntry(board), PsramUsedEntry(board), IntegerHandler(HR_MEMORY_SIZE, MemorySizeKb(board)) ]
  }

  /** hrStorageSize of the SPI RAM row: read from the allocator on ESP32,
      a fixed 0 on ESP8266. */
  function PsramSizeEntry(board: Board): Entry {
    if board.Esp32? then DynamicIntegerHandler(PSRAM_SIZE_OID, PsramTotal) else IntegerHandler(PSRAM_SIZE_OID, 0)
  }

  /** hrStorageUsed of the SPI RAM row, split between the boards the same way. */
  function PsramUsedEntry(board: Board): Entry {
    if board.Esp32? then DynamicIntegerHandler(PSRAM_USED_OID, PsramUsed) else IntegerHandler(PSRAM_USED_OID, 0)
  }

  /** hrMemorySize: the chip's on-chip RAM on ESP32, a fixed 160 KiB on
      ESP8266. */
  function MemorySizeKb(board: Board): nat {
    match board
    case Esp32(model) => Adapters.RamSizeKb(model)
    case Esp8266 => 160
  }

  /** `setup_esp32_heap_mib_` / `setup_esp8266_heap_mib_`. */
  function HeapMib(board: Board): (r: seq<Entry>)
    ensures |r| == (if board.Esp32? then 4 else 3)
  {
    match board
    case Esp32(_) =>
      [ DynamicIntegerHandler(CustomScalar(ESP32_GROUP, 1), HeapSize),
        DynamicIntegerHandler(CustomScalar(ESP32_GROUP, 2), FreeHeap),
        DynamicIntegerHandler(CustomScalar(ESP32_GROUP, 3), MinFreeHeap),
        DynamicIntegerHandler(CustomScalar(ESP32_GROUP, 4), MaxAllocHeap) ]
    case Esp8266 =>
      [ DynamicIntegerHandler(CustomScalar(ESP8266_GROUP, 1), FreeHeap),
        DynamicIntegerHandler(CustomScalar(ESP8266_GROUP, 2), HeapFragmentation),
        DynamicIntegerHandler(CustomScalar(ESP8266_GROUP, 3), MaxFreeBlockSize) ]
  }

  /** `setup_chip_mib_`: chip type, CPU frequency, model, cores, revision. */
  function ChipMib(board: Board): (r: seq<Entry>)
    ensures |r| == 5
  {
    match board
    case Esp32(_) =>
      [ IntegerHandler(CustomScalar(CHIP_GROUP, 1), 32),
        DynamicIntegerHandler(CustomScalar(CHIP_GROUP, 2), CpuFreqMHz),
        DynamicStringHandler(CustomScalar(CHIP_GROUP, 3), ChipModelName),
        DynamicIntegerHandler(CustomScalar(CHIP_GROUP, 4), ChipCores),
        DynamicIntegerHandler(CustomScalar(CHIP_GROUP, 5), ChipRevision) ]
    case Esp8266 =>
      [ IntegerHandler(CustomScalar(CHIP_GROUP, 1), 8266),
        DynamicIntegerHandler(CustomScalar(CHIP_GROUP, 2), CpuFreqMHz),
        DynamicStringHandler(CustomScalar(CHIP_GROUP, 3), CoreVersion),
        IntegerHandler(CustomScalar(CHIP_GROUP, 4), 1),
        IntegerHandler(CustomScalar(CHIP_GROUP, 5), 0) ]
  }

  /** `setup_wifi_mib_`: signal strength, BSSID, SSID, first IP address. */
  function WifiMib(): (r: seq<Entry>)
    ensures |r| == 4
  {
    [ DynamicIntegerHandler(CustomScalar(WIFI_GROUP, 1), WifiRssi),
      DynamicStringHandler(BSSID_OID, WifiBssid),
      DynamicStringHandler(CustomScalar(WIFI_GROUP, 3), WifiSsid),
      DynamicStringHandler(IP_ADDRESS_OID, WifiIpAddress) ]
  }

  /** `setup_sensor_mib_`: one row per configured sensor. */
  function SensorMib(hasTemperature: bool, hasHumidity: bool): (r: seq<Entry>)
    ensures |r| == (if hasTemperature then 1 else 0) + (if hasHumidity then 1 else 0)
  {
    (if hasTemperature then [DynamicIntegerHandler(TEMPERATURE_OID, Temperature)] else []) +
    (if hasHumidity then [DynamicIntegerHandler(HUMIDITY_OID, Humidity)] else [])
  }

  /** Everything `setup()` registers before `sortHandlers`, in order: 32
      objects on ESP32, 31 on ESP8266, and one more per configured sensor. */
  function BuildMib(board: Board, config: Component.Config, description: string): (r: seq<Entry>)
    ensures |r| == (if board.Esp32? then 32 else 31) +
                   (if config.temperature.Some? then 1 else 0) + (if config.humidity.Some? then 1 else 0)
  {
    UptimeMib() +
    SystemMib(board, description, config.contact, config.location) +
    StorageMib(board) +
    HeapMib(board) +
    ChipMib(board) +
    WifiMib() +
    SensorMib(config.temperature.Some?, config.humidity.Some?)
  }
}
