/** Resolution of an entry to the value the agent serves.  A static entry
    yields the value fixed at registration; a dynamic one calls its
    provider, which reads the hardware.  All hardware state the providers
    read is gathered in `Readings`, one field per `ESP.*`, `heap_caps_*`,
    Wi-Fi or `App` call of the source. */
module Resolve {
  import opened Base
  import opened Oids
  import opened Mib
  import Bssid
  import Adapters
  import Component
  import opened MibFacts
  import Registry

  datatype Readings = Readings(
    millis: uint32,
    connectedAt: Option<uint32>,
    appName: string,
    flashChipSize: int32,
    sketchSize: int32,
    psramFree: uint32,
    psramTotal: uint32,
    heapSize: int32,
    freeHeap: int32,
    minFreeHeap: int32,
    maxAllocHeap: int32,
    heapFragmentation: int32,
    maxFreeBlockSize: int32,
    cpuFreqMHz: int32,
    chipModel: string,
    coreVersion: string,
    chipCores: int32,
    chipRevision: int32,
    rssi: int32,
    bssid: Bssid.Mac,
    ssid: string,
    ipAddresses: seq<string>)

  /** The value a provider returns; `instance` is the component state the
      sensor callbacks reach through `instance_`.  Every hardware provider
      is declared `-> int`, so its Integer value fits C's 32-bit `int`. */
  function Read(p: Provider, hw: Readings, instance: Option<Component.Config>): (v: Value)
    ensures KindOf(v) == ProviderKind(p)
    ensures v.IntVal? && !p.Temperature? && !p.Humidity? ==> -TWO_31 <= v.i < TWO_31
  {
    match p
    case NetUptime => TicksVal(Adapters.NetUptime(hw.millis, hw.connectedAt))
    case Uptime => TicksVal(Adapters.Uptime(hw.millis))
    case SysName => StrVal(hw.appName)
    case FlashChipSize => IntVal(hw.flashChipSize)
    case SketchSize => IntVal(hw.sketchSize)
    case PsramTotal => IntVal(Adapters.PsramSize(hw.psramFree, hw.psramTotal).total)
    case PsramUsed => IntVal(Adapters.PsramSize(hw.psramFree, hw.psramTotal).used)
    case HeapSize => IntVal(hw.heapSize)
    case FreeHeap => IntVal(hw.freeHeap)
    case MinFreeHeap => IntVal(hw.minFreeHeap)
    case MaxAllocHeap => IntVal(hw.maxAllocHeap)
    case HeapFragmentation => IntVal(hw.heapFragmentation)
    case MaxFreeBlockSize => IntVal(hw.maxFreeBlockSize)
    case CpuFreqMHz => IntVal(hw.cpuFreqMHz)
    case ChipModelName => StrVal(hw.chipModel)
    case CoreVersion => StrVal(hw.coreVersion)
    case ChipCores => IntVal(hw.chipCores)
    case ChipRevision => IntVal(hw.chipRevision)
    case WifiRssi => IntVal(hw.rssi)
    case WifiBssid => StrVal(Bssid.FormatBssid(hw.bssid))
    case WifiSsid => StrVal(hw.ssid)
    case WifiIpAddress => StrVal(Adapters.IpAddressText(hw.ipAddresses))
    case Temperature => IntVal(Component.GetTemperature(instance))
    case Humidity => IntVal(Component.GetHumidity(instance))
  }

  /** The value served for an entry; a well-typed entry always yields a
      value of the kind it was registered with. */
  function ValueOf(e: Entry, hw: Readings, instance: Option<Component.Config>): (v: Value)
    ensures WellTyped(e) ==> KindOf(v) == e.kind
    ensures e.src.Static? ==> v == e.src.value
  {
    match e.src
    case Static(v) => v
    case Dynamic(p) => Read(p, hw, instance)
  }

  /** Whatever the hardware reports, every identifier `setup()` registers
      serves a value of the kind declared at registration. */
  lemma ServedValuesHaveDeclaredKind(board: Board, config: Component.Config, description: string,
                                     hw: Readings, instance: Option<Component.Config>)
    ensures forall e :: e in BuildMib(board, config, description) ==> KindOf(ValueOf(e, hw, instance)) == e.kind
  {
    BuildMibWellTyped(board, config, description);
  }

  /** In a registry where every identifier is registered once, any entry
      found at `e0.oid` serves what `e0` serves. */
  lemma ServedBy(s: seq<Entry>, e0: Entry, hw: Readings, instance: Option<Component.Config>)
    requires Distinct(OidsOf(s)) && e0 in s
    ensures forall e :: e in s && e.oid == e0.oid ==> ValueOf(e, hw, instance) == ValueOf(e0, hw, instance)
  {
    forall e | e in s && e.oid == e0.oid
      ensures e == e0
    {
      RegisteredEntryUnique(s, e, e0);
    }
  }

  /** The conditions under which a registry binds the live rows to their
      providers: identifiers are unique, the uptime, BSSID and address rows
      are present, and a sensor row, when present, reads its sensor. */
  ghost predicate BindsLiveRows(s: seq<Entry>) {
    && Distinct(OidsOf(s))
    && DynamicTimestampHandler(SYS_UP_TIME, NetUptime) in s
    && DynamicTimestampHandler(HR_SYSTEM_UPTIME, Uptime) in s
    && DynamicStringHandler(BSSID_OID, WifiBssid) in s
    && DynamicStringHandler(IP_ADDRESS_OID, WifiIpAddress) in s
    && (TEMPERATURE_OID in OidsOf(s) ==> DynamicIntegerHandler(TEMPERATURE_OID, Temperature) in s)
    && (HUMIDITY_OID in OidsOf(s) ==> DynamicIntegerHandler(HUMIDITY_OID, Humidity) in s)
  }

  /** The MIB `setup()` builds binds its live rows, on either board and
      with or without sensors. */
  lemma BuildMibBindsLiveRows(board: Board, config: Component.Config, description: string)
    ensures BindsLiveRows(BuildMib(board, config, description))
  {
    BuildMibDistinct(board, config, description);
    SensorRowsExactlyWhenConfigured(board, config, description);
    LiveRowsRegistered(board, config, description);
  }

  /** Sorting keeps the live rows bound: the sorted registry holds the same
      entries, and its identifiers are still unique. */
  lemma FinalizeBindsLiveRows(s: seq<Entry>)
    requires BindsLiveRows(s)
    ensures BindsLiveRows(Registry.Finalize(s))
  {
    var r := Registry.Finalize(s);
    Registry.FinalizeStrictlyAscending(s);
    Registry.StrictlyAscendingDistinct(r);
    assert DynamicTimestampHandler(SYS_UP_TIME, NetUptime) in multiset(s);
    assert DynamicTimestampHandler(HR_SYSTEM_UPTIME, Uptime) in multiset(s);
    assert DynamicStringHandler(BSSID_OID, WifiBssid) in multiset(s);
    assert DynamicStringHandler(IP_ADDRESS_OID, WifiIpAddress) in multiset(s);
    if TEMPERATURE_OID in OidsOf(r) {
      Registry.OidsOfPermutation(r, s, TEMPERATURE_OID);
      assert DynamicIntegerHandler(TEMPERATURE_OID, Temperature) in multiset(s);
    }
    if HUMIDITY_OID in OidsOf(r) {
      Registry.OidsOfPermutation(r, s, HUMIDITY_OID);
      assert DynamicIntegerHandler(HUMIDITY_OID, Humidity) in multiset(s);
    }
  }

  /** The registry the agent serves from after `setup()` binds its live
      rows, so the row lemmas below hold of it. */
  lemma SetupBindsLiveRows(board: Board, config: Component.Config, description: string)
    ensures BindsLiveRows(Registry.Setup(board, config, description))
  {
    BuildMibBindsLiveRows(board, config, description);
    FinalizeBindsLiveRows(BuildMib(board, config, description));
  }

  /** Both uptime rows read the clock through their adapters: sysUpTime
      counts from the Wi-Fi connection, hrSystemUptime from boot. */
  lemma UptimeRowsServe(s: seq<Entry>, hw: Readings, instance: Option<Component.Config>)
    requires BindsLiveRows(s)
    ensures forall e :: e in s && e.oid == SYS_UP_TIME ==>
              ValueOf(e, hw, instance) == TicksVal(Adapters.NetUptime(hw.millis, hw.connectedAt))
    ensures forall e :: e in s && e.oid == HR_SYSTEM_UPTIME ==>
              ValueOf(e, hw, instance) == TicksVal(Adapters.Uptime(hw.millis))
  {
    ServedBy(s, DynamicTimestampHandler(SYS_UP_TIME, NetUptime), hw, instance);
    ServedBy(s, DynamicTimestampHandler(HR_SYSTEM_UPTIME, Uptime), hw, instance);
  }

  /** The BSSID row serves the formatted access-point address and the
      address row the first station address, or "" when there is none. */
  lemma WifiRowsServe(s: seq<Entry>, hw: Readings, instance: Option<Component.Config>)
    requires BindsLiveRows(s)
    ensures forall e :: e in s && e.oid == BSSID_OID ==>
              ValueOf(e, hw, instance) == StrVal(Bssid.FormatBssid(hw.bssid))
    ensures forall e :: e in s && e.oid == IP_ADDRESS_OID ==>
              ValueOf(e, hw, instance) == StrVal(Adapters.IpAddressText(hw.ipAddresses))
  {
    ServedBy(s, DynamicStringHandler(BSSID_OID, WifiBssid), hw, instance);
    ServedBy(s, DynamicStringHandler(IP_ADDRESS_OID, WifiIpAddress), hw, instance);
  }

  /** The temperature row, where one is registered, reads the sensor
      through the component instance. */
  lemma TemperatureRowServes(s: seq<Entry>, hw: Readings, instance: Option<Component.Config>)
    requires BindsLiveRows(s)
    ensures forall e :: e in s && e.oid == TEMPERATURE_OID ==>
              ValueOf(e, hw, instance) == IntVal(Component.GetTemperature(instance))
  {
    var t := DynamicIntegerHandler(TEMPERATURE_OID, Temperature);
    if t in s {
      ServedBy(s, t, hw, instance);
    } else {
      forall e | e in s ensures e.oid != TEMPERATURE_OID {
        InOidsOf(s, e);
      }
    }
  }

  /** The humidity row, likewise. */
  lemma HumidityRowServes(s: seq<Entry>, hw: Readings, instance: Option<Component.Config>)
    requires BindsLiveRows(s)
    ensures forall e :: e in s && e.oid == HUMIDITY_OID ==>
              ValueOf(e, hw, instance) == IntVal(Component.GetHumidity(instance))
  {
    var h := DynamicIntegerHandler(HUMIDITY_OID, Humidity);
    if h in s {
      ServedBy(s, h, hw, instance);
    } else {
      forall e | e in s ensures e.oid != HUMIDITY_OID {
        InOidsOf(s, e);
      }
    }
  }

  lemma LiveRowsRegistered(board: Board, config: Component.Config, description: string)
    ensures DynamicTimestampHandler(SYS_UP_TIME, NetUptime) in BuildMib(board, config, description)
    ensures DynamicTimestampHandler(HR_SYSTEM_UPTIME, Uptime) in BuildMib(board, config, description)
    ensures DynamicStringHandler(BSSID_OID, WifiBssid) in BuildMib(board, config, description)
    ensures DynamicStringHandler(IP_ADDRESS_OID, WifiIpAddress) in BuildMib(board, config, description)
    ensures config.temperature.Some? ==> DynamicIntegerHandler(TEMPERATURE_OID, Temperature) in BuildMib(board, config, description)
    ensures config.humidity.Some? ==> DynamicIntegerHandler(HUMIDITY_OID, Humidity) in BuildMib(board, config, description)
  {
  }

  /** A source that is absent or has nothing to report yields the default
      value instead of a failure: 0 for a sensor without an instance, a
      sensor or a reading, and "" for a station without an address. */
  lemma AbsentSourcesServeDefaults(s: seq<Entry>, hw: Readings, instance: Option<Component.Config>)
    requires BindsLiveRows(s)
    ensures (instance.None? || instance.value.temperature.None? || !instance.value.temperature.value.hasState) ==>
              forall e :: e in s && e.oid == TEMPERATURE_OID ==> ValueOf(e, hw, instance) == IntVal(0)
    ensures (instance.None? || instance.value.humidity.None? || !instance.value.humidity.value.hasState) ==>
              forall e :: e in s && e.oid == HUMIDITY_OID ==> ValueOf(e, hw, instance) == IntVal(0)
    ensures |hw.ipAddresses| == 0 ==>
              forall e :: e in s && e.oid == IP_ADDRESS_OID ==> ValueOf(e, hw, instance) == StrVal("")
  {
    WifiRowsServe(s, hw, instance);
    TemperatureRowServes(s, hw, instance);
    HumidityRowServes(s, hw, instance);
  }

  /** Both SPI RAM rows of the storage table read 0 on a board without SPI
      RAM: on ESP8266 they are fixed at 0, on ESP32 the adapter reports 0
      when no SPI RAM is free. */
  lemma PsramRowsWithoutPsram(s: seq<Entry>, board: Board, hw: Readings, instance: Option<Component.Config>)
    requires Distinct(OidsOf(s))
    requires board.Esp32? ==> DynamicIntegerHandler(PSRAM_SIZE_OID, PsramTotal) in s && DynamicIntegerHandler(PSRAM_USED_OID, PsramUsed) in s
    requires board.Esp8266? ==> IntegerHandler(PSRAM_SIZE_OID, 0) in s && IntegerHandler(PSRAM_USED_OID, 0) in s
    requires board.Esp8266? || hw.psramFree == 0
    ensures forall e :: e in s && (e.oid == PSRAM_SIZE_OID || e.oid == PSRAM_USED_OID) ==> ValueOf(e, hw, instance) == IntVal(0)
  {
    if board.Esp32? {
      ServedBy(s, DynamicIntegerHandler(PSRAM_SIZE_OID, PsramTotal), hw, instance);
      ServedBy(s, DynamicIntegerHandler(PSRAM_USED_OID, PsramUsed), hw, instance);
    } else {
      ServedBy(s, IntegerHandler(PSRAM_SIZE_OID, 0), hw, instance);
      ServedBy(s, IntegerHandler(PSRAM_USED_OID, 0), hw, instance);
    }
  }

  /** On the registry left by `setup()`, both SPI RAM rows exist on every
      board and serve 0 on ESP8266, and on ESP32 when no SPI RAM is free. */
  lemma PsramRowsOnSetup(board: Board, config: Component.Config, description: string,
                         hw: Readings, instance: Option<Component.Config>)
    requires board.Esp8266? || hw.psramFree == 0
    ensures PSRAM_SIZE_OID in OidsOf(Registry.Setup(board, config, description))
    ensures PSRAM_USED_OID in OidsOf(Registry.Setup(board, config, description))
    ensures forall e :: e in Registry.Setup(board, config, description) && (e.oid == PSRAM_SIZE_OID || e.oid == PSRAM_USED_OID) ==>
              ValueOf(e, hw, instance) == IntVal(0)
  {
    var s := BuildMib(board, config, description);
    var r := Registry.Setup(board, config, description);
    BoardSpecificValues(board, config, description);
    Registry.SetupSorted(board, config, description);
    Registry.StrictlyAscendingDistinct(r);
    var size, used := PsramSizeEntry(board), PsramUsedEntry(board);
    assert size in multiset(s) && used in multiset(s);
    assert size in r && used in r;
    InOidsOf(r, size);
    InOidsOf(r, used);
    PsramRowsWithoutPsram(r, board, hw, instance);
  }
}
