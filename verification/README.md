# esphome-snmp: the MIB the SNMP component registers, in Dafny

This project models the SNMP component for ESPHome devices. At `setup()`
the component registers one handler per SNMP object with its agent, then
sorts the handlers once. An object is either a fixed value or a live
reading of the chip, the heap, Wi-Fi or an optional sensor. Around that
table sit a few value adapters: chip RAM size, SPI RAM (PSRAM) use, BSSID
text, TimeTicks uptime, sensor tenths and the first IP address. The
component also keeps its configuration state: communities, contact,
location and optional sensors.

Modules, one concept each:

- `Base`: `Option`, 32-bit signed and unsigned values, and C's wrap-around and
  `int` conversions.
- `Oids`: OIDs as `seq<nat>`. It holds their lexicographic order and the
  identifier constants: the MIB-II system group of section 6 of RFC 1213,
  the Host Resources MIB of RFC 2790, and the vendor root `1.3.9999` with
  the vendor objects the model refers to by name.
- `Bssid`: the access-point address as six upper-case hex pairs, with a
  parser as the formatter's inverse.
- `Adapters`: the board-independent value computations. Every hardware
  read becomes a parameter.
- `Component`: the configuration fields, their defaults and setters, and
  the two sensor providers.
- `Mib`: entries, providers, the six `setup_*_mib_` groups, and `BuildMib`,
  which concatenates the groups in `setup()`'s order. Conditional
  compilation on the board family is a case split on `Board`.
- `MibFacts`: properties of the built table.
  - Identifiers are unique.
  - Every entry is well typed.
  - Sensor rows appear exactly when a sensor is configured.
  - The tree has the same shape on both boards.
  - The board-specific values are fixed.
- `Registry`: the sort at the end of `setup()`, stated as a reference
  insertion sort, with its ordering and permutation properties.
- `Resolve`: what each registered row serves, given a snapshot of the
  hardware readings.

## Model

| member | source | states |
|---|---|---|
| Adapters.RamSizeKb | components/snmp/snmp_component.cpp:225-247 | The RAM size in KiB is non-zero exactly for the seven listed chip models, where it equals an independently written table (1→520, 2→320, 9→512, 5/12/13→400, 6→256); every other model code gives 0 |
| Adapters.PsramSize | components/snmp/snmp_component.cpp:60-72 | With no free SPI RAM both total and used are 0. Otherwise total is the allocator's total read as a C `int`. Used is 0 when total is not positive, and equals total − free when free ≤ total. Used is always in the 32-bit `int` range, and when free > 0 and total > 0 it is congruent to total − free modulo 2^32 |
| Base.Wrap32 | components/snmp/snmp_component.cpp:68 | Reduction to 32 bits keeps the value modulo 2^32 and leaves in-range values alone |
| Base.ToInt32 | components/snmp/snmp_component.cpp:66 | Reading a 32-bit pattern as a C `int` gives a value in the int32 range, congruent modulo 2^32, unchanged below 2^31 |
| Adapters.Uptime | components/snmp/snmp_component.h:70 | The uptime in TimeTicks is the number of whole hundredths of a second in the millisecond count |
| Adapters.UptimeBound | components/snmp/snmp_component.h:70 | With a 32-bit millisecond counter the uptime never exceeds 429496729 |
| Adapters.NetUptime | components/snmp/snmp_component.cpp:19-25 | Without a connection timestamp the net uptime is 0. Otherwise it counts whole hundredths since the connection, including when the counter has wrapped past 2^32 since then |
| Adapters.NetUptimeElapsed | components/snmp/snmp_component.cpp:19-25 | For any connection time and any elapsed time below 2^32 ms, the net uptime read at the wrapped current time is elapsed/10 |
| Adapters.Tenths | components/snmp/snmp_component.cpp:31 | A reading scaled by ten is truncated toward zero: never above it for non-negative readings, never below it for negative ones, and off by less than one |
| Adapters.TenthsTruncates | components/snmp/snmp_component.cpp:31 | 21.45 is served as 214 and −21.45 as −214: truncation, not rounding |
| Adapters.IpAddressText | components/snmp/snmp_component.cpp:171-175 | An empty address list yields ""; otherwise the provider yields the first address |
| Bssid.FormatBssid | components/snmp/snmp_component.cpp:112-117 | The BSSID text has 17 characters, a colon exactly at positions 2, 5, 8, 11 and 14, and an upper-case hex digit everywhere else |
| Bssid.FormatThenParse | components/snmp/snmp_component.cpp:115 | Parsing the formatted text gives back the six bytes, so the format loses nothing |
| Bssid.ParseThenFormat | components/snmp/snmp_component.cpp:115 | Any text that parses as a BSSID in this format is exactly what formatting its bytes produces |
| Bssid.FormatExample | components/snmp/snmp_component.cpp:115 | The bytes AA,01,2B,03,04,05 are shown as "AA:01:2B:03:04:05", zero-padded |
| Bssid.OctetRoundTrip | components/snmp/snmp_component.cpp:115 | One `%02X` pair parses back to its byte |
| Component.DefaultConfig | components/snmp/snmp_component.h:53-54 | A new component has read community "public", write community "private", empty contact and location, and no sensors |
| Component.SetReadCommunity | components/snmp/snmp_component.h:36 | Sets the read community and leaves the other three strings and the sensors unchanged |
| Component.SetWriteCommunity | components/snmp/snmp_component.h:39 | Sets the write community and leaves the rest unchanged |
| Component.SetContact | components/snmp/snmp_component.h:45 | Sets the contact and leaves the rest unchanged |
| Component.SetLocation | components/snmp/snmp_component.h:47 | Sets the location and leaves the rest unchanged |
| Component.SettersCommute | components/snmp/snmp_component.h:36-47 | Setters of different fields commute, for all six pairs of the four string setters |
| Component.SettersLastWins | components/snmp/snmp_component.h:36-47 | A second call to the same setter overrides the first |
| Component.GetTemperature | components/snmp/snmp_component.cpp:28-32 | 0 without a component instance, without a temperature sensor, or before the sensor has a reading; otherwise the reading in tenths |
| Component.GetHumidity | components/snmp/snmp_component.cpp:34-38 | The same guard over the humidity sensor |
| Mib.Truncate | components/snmp/snmp_component.cpp:43-44 | The description kept in the 128-byte buffer is the whole text when it has at most 127 characters, and exactly its first 127 characters otherwise |
| Mib.UptimeMib | components/snmp/snmp_component.cpp:197-198 | The two uptime objects registered first are both live TimeTicks readings; what they serve is `Resolve.UptimeRowsServe` |
| Mib.SystemMib | components/snmp/snmp_component.cpp:41-57 | `setup_system_mib_` registers six objects; `MibFacts.SystemSubtree` places them all in the MIB-II system group 1.3.6.1.2.1.1, `MibFacts.BoardSpecificValues` gives sysObjectID, sysServices, contact, location and sysName's binding to the application-name provider, and `MibFacts.DescriptionFitsBuffer` gives sysDescr |
| Mib.StorageMib | components/snmp/snmp_component.cpp:75-110 | `setup_storage_mib_` registers eleven objects on either board; `MibFacts.StorageSubtree` places them under 1.3.6.1.2.1.25.2, and `MibFacts.StorageSameOnBothBoards` shows the same identifiers on both boards |
| Mib.HeapMib | components/snmp/snmp_component.cpp:119-134 | The heap group has four objects on ESP32 and three on ESP8266; `MibFacts.HeapSubtree` places them under 1.3.9999.32 or 1.3.9999.8266 |
| Mib.ChipMib | components/snmp/snmp_component.cpp:136-163 | `setup_chip_mib_` registers five objects on either board; `MibFacts.ChipSubtree` places them under 1.3.9999.2 |
| Mib.WifiMib | components/snmp/snmp_component.cpp:165-176 | `setup_wifi_mib_` registers four objects; `MibFacts.WifiSubtree` places them under 1.3.9999.4, and `Resolve.WifiRowsServe` gives what the BSSID and address rows serve |
| Mib.SensorMib | components/snmp/snmp_component.cpp:179-186 | One object per configured sensor; `MibFacts.SensorSubtree` places them under 1.3.9999.10, and `MibFacts.SensorRows` says which ones |
| Mib.BuildMib | components/snmp/snmp_component.cpp:197-210 | `setup()` registers 32 objects on ESP32 and 31 on ESP8266, plus one per configured sensor; its identifiers are distinct (`MibFacts.BuildMibDistinct`) |
| MibFacts.BuildMibDistinct | components/snmp/snmp_component.cpp:188-211 | For every board, sensor configuration, contact, location and description, the identifiers `setup()` registers are pairwise distinct |
| MibFacts.BuildMibWellTyped | components/snmp/snmp_component.cpp:41-186 | Every registered entry's value, fixed or provided, has the kind it was registered with |
| MibFacts.SensorRowsExactlyWhenConfigured | components/snmp/snmp_component.cpp:179-186 | 1.3.9999.10.1.0 is registered if and only if a temperature sensor is configured; 1.3.9999.10.2.0 if and only if a humidity sensor is |
| MibFacts.StorageSameOnBothBoards | components/snmp/snmp_component.cpp:75-110 | The storage subtree registers the same identifiers in the same order on ESP32 and ESP8266, including both SPI RAM rows |
| MibFacts.SameTreeOutsideHeapGroup | components/snmp/snmp_component.cpp:119-134 | Outside the board's heap-statistics group (1.3.9999.32 or 1.3.9999.8266), the registered identifiers are the same on both boards and for any strings. They depend only on which sensors are present |
| MibFacts.BoardSpecificValues | components/snmp/snmp_component.cpp:41-163 | The table contains: sysObjectID 1.3.9999.32 or 1.3.9999.8266; the chip-type value 32 or 8266; hrMemorySize (the model's RAM on ESP32, 160 on ESP8266); dynamic SPI RAM rows on ESP32; static zeros for the SPI RAM rows, 1 core and revision 0 on ESP8266; the configured contact and location; sysServices 64; and sysName bound to the application-name provider |
| MibFacts.DescriptionFitsBuffer | components/snmp/snmp_component.cpp:42-45 | sysDescr is registered with the whole description when it fits in 127 characters and with its first 127 characters otherwise |
| MibFacts.SensorOidsNotPreSensor | components/snmp/snmp_component.cpp:197-209 | No group registered before the sensor group uses either sensor identifier |
| MibFacts.SystemSubtree | components/snmp/snmp_component.cpp:45-56 | Every object of `setup_system_mib_` lies under 1.3.6.1.2.1.1 |
| MibFacts.StorageSubtree | components/snmp/snmp_component.cpp:76-108 | Every object of `setup_storage_mib_` lies under 1.3.6.1.2.1.25.2, hrMemorySize included |
| MibFacts.HeapSubtree | components/snmp/snmp_component.cpp:119-134 | Every heap object lies under the board's vendor group, 1.3.9999.32 or 1.3.9999.8266 |
| MibFacts.ChipSubtree | components/snmp/snmp_component.cpp:136-163 | Every chip object lies under 1.3.9999.2 |
| MibFacts.WifiSubtree | components/snmp/snmp_component.cpp:165-176 | Every Wi-Fi object lies under 1.3.9999.4 |
| MibFacts.SensorSubtree | components/snmp/snmp_component.cpp:179-186 | Every sensor object lies under 1.3.9999.10 |
| Registry.FinalizeSortsAndPermutes | components/snmp/snmp_component.cpp:211 | Sorting yields an ascending arrangement of exactly the registered entries |
| Registry.Finalize | components/snmp/snmp_component.cpp:211 | `sortHandlers` keeps exactly the registered entries, none lost or duplicated; the order is `Registry.FinalizeSortsAndPermutes` |
| Registry.Insert | components/snmp/snmp_component.cpp:211 | One insertion step of the reference sort adds exactly one entry |
| Registry.FinalizeStrictlyAscending | components/snmp/snmp_component.cpp:211 | With distinct identifiers the sorted registry is strictly ascending, so get-next has no ties |
| Registry.SortedPermutationUnique | components/snmp/snmp_component.cpp:211 | Two strictly ascending arrangements of the same entries are equal, so the result of the sort does not depend on the algorithm |
| Registry.FinalizeIdempotent | components/snmp/snmp_component.cpp:211 | Sorting an already sorted registry changes nothing |
| Registry.SetupSorted | components/snmp/snmp_component.cpp:188-211 | After the single sort that ends `setup()`, the registry holds exactly the registered entries in strictly ascending OID order, and it is the only such arrangement |
| Oids.LessTotal | components/snmp/snmp_component.cpp:211 | Any two different OIDs are ordered one way or the other |
| Oids.LessTransitive | components/snmp/snmp_component.cpp:211 | The OID order is transitive |
| Resolve.ServedValuesHaveDeclaredKind | components/snmp/snmp_component.cpp:188-211 | Whatever the hardware reports, every registered row serves a value of its declared kind |
| Resolve.Read | components/snmp/snmp_component.cpp:19-186 | Every registered lambda or callback returns a value of the kind its provider is registered with. Every hardware provider is declared `-> int`, so each Integer value it serves lies in C's 32-bit `int` range |
| Resolve.ValueOf | components/snmp/snmp_component.cpp:45-186 | A fixed entry serves its registered value; a well-typed entry serves a value of its declared kind |
| Resolve.ServedBy | components/snmp/snmp_component.cpp:211 | In a registry with unique identifiers, whatever is found at an entry's identifier serves that entry's value |
| Resolve.BuildMibBindsLiveRows | components/snmp/snmp_component.cpp:165-198 | The built table has unique identifiers and both uptime rows, the BSSID row and the address row, and a sensor row present in it is bound to its sensor |
| Resolve.FinalizeBindsLiveRows | components/snmp/snmp_component.cpp:211 | Sorting keeps identifiers unique and keeps every live row bound to its provider |
| Resolve.SetupBindsLiveRows | components/snmp/snmp_component.cpp:188-211 | The sorted registry the agent serves from after `setup()` binds its live rows, so the row lemmas below hold of it |
| Resolve.UptimeRowsServe | components/snmp/snmp_component.cpp:197-198 | sysUpTime serves the net uptime since the Wi-Fi connection; hrSystemUptime serves the uptime since boot |
| Resolve.WifiRowsServe | components/snmp/snmp_component.cpp:165-176 | The BSSID row serves the formatted access-point address; the address row serves the first address or "" |
| Resolve.TemperatureRowServes | components/snmp/snmp_component.cpp:179-182 | The temperature row, where registered, serves the temperature provider's value |
| Resolve.HumidityRowServes | components/snmp/snmp_component.cpp:183-185 | The humidity row, where registered, serves the humidity provider's value |
| Resolve.AbsentSourcesServeDefaults | components/snmp/snmp_component.cpp:28-38 | A sensor row serves 0 without an instance, a sensor or a reading, and the address row serves "" without an address: the default, not a failure |
| Resolve.PsramRowsWithoutPsram | components/snmp/snmp_component.cpp:87-102 | Both SPI RAM rows serve 0 on ESP8266, and on ESP32 when no SPI RAM is free |
| Resolve.PsramRowsOnSetup | components/snmp/snmp_component.cpp:83-102 | On the sorted registry left by `setup()`, both SPI RAM rows exist on every board, and they serve 0 on ESP8266 and on ESP32 when no SPI RAM is free |

## Left out

- Agent construction, `setUDP`, `begin` and `loop` (snmp_component.cpp:190-192, 222) are left out. They are network I/O and library calls.
- The header's inline `setup()` calling `SNMP_Agent.begin` (snmp_component.h:29-33) is left out. It conflicts with the out-of-line `setup()` of the .cpp, and the model follows the .cpp's registration sequence.
- The SNMP agent library is not part of this model: OID-string parsing, get/get-next lookup, BER encoding and community checks. `sortHandlers` is represented by `Registry.Finalize`, a reference sort stating the sorted-permutation result the component relies on. It is not the library's algorithm. `SortedPermutationUnique` shows that any correct sort gives the same table.
- Hardware and framework reads are inputs: `ESP.*`, `heap_caps_*`, `esp_chip_info`, `millis()`, the Wi-Fi component and `App.get_name()`. They are the `Readings` fields, the `Board` chip model and the `Option<Config>` instance. An integer read through a `-> int` lambda is an `int32` field holding the lambda's result; the library calls' own return types, and their conversion to `int`, are not modelled.
- The `RFC1213_OID_sys*` constants are defined by the SNMP agent library, not by this component. They are taken as the MIB-II system group of section 6 of RFC 1213: 1.3.6.1.2.1.1.n.0, with n = 1 descr, 2 objectID, 3 upTime, 4 contact, 5 name, 6 location, 7 services.
- hrMemorySize is registered at 1.3.6.1.2.1.25.2.2, without the `.0` instance suffix of an RFC 2790 scalar. The model keeps the identifier as the code writes it.
- The description text is a parameter. It is built at compile time from the ESPHome version, compilation time and board name (snmp_component.cpp:42-44). Only the buffer's 127-byte truncation is modelled, counting characters as bytes, which holds for ASCII text.
- Adapters.Tenths: the source multiplies a single-precision float and casts it to `int`. The model is an idealisation over reals with truncation toward zero, with no float rounding and no overflow of the cast.
- Adapters.Tenths: a reading is a real number, so NaN and ±infinity cannot arise. A sensor that publishes NaN after a failed read still has a state, passes the guard, and makes the source cast NaN to `int`, which C++ leaves undefined; the model does not cover that case.
- Component.GetTemperature and Component.GetHumidity promise the 0 default only for a missing instance, a missing sensor or a sensor without a state; a NaN or infinite reading is outside the model, as above.
- Adapters.IpAddressText: the addresses arrive already rendered as text. `IPAddress::str()` is not part of this model.
- Adapters.IpAddressText: the model assumes the station's address container can be empty, as the `size()` test at snmp_component.cpp:174 supposes. The container type comes from the Wi-Fi component, which is not part of this model; if it has a fixed size, the "" branch never runs and a station without an address serves the text of an unset address instead.
- Adapters.NetUptime: the wrap-around arithmetic assumes the Wi-Fi component's connection timestamp is a 32-bit unsigned millisecond count like `millis()`. Its type comes from the Wi-Fi component, which is not part of this model; a 64-bit timestamp would wrap modulo 2^64 before the `uint32_t` return.
- Mib.Truncate: `snprintf` keeps 127 bytes, while the model keeps 127 characters. The two agree for ASCII text; multi-byte UTF-8 in the build's board or version strings is not modelled.
- Component.DefaultConfig: the header declares neither the sensor pointers nor `setup_sensor_mib_`, `get_temperature`, `get_humidity` or `instance_`, although the .cpp defines or uses all of them (snmp_component.cpp:17, 28-38, 179-186). The model assumes both sensor pointers start null. The .cpp's `nullptr` tests at lines 29, 35, 180 and 183 read null as "not configured".
- `dump_config` only logs and is left out.
- The static `instance_` pointer becomes an `Option<Config>` passed to the sensor providers. `None` stands for the null pointer before `setup()`.
- The code tests the board with three spellings: `#ifdef USE_ESP32`, `#if USE_ESP32` and `#if ESP32` (likewise for ESP8266). All three are read as the same board condition.
- `get_setup_priority` is a scheduling hint with no effect on the table and is left out.
