/** Board-independent value adapters: the small computations that turn raw
    hardware readings into the values the agent serves.  Every hardware
    read of the source (`millis()`, `esp_chip_info`, `heap_caps_*`, the
    Wi-Fi component) is a parameter here. */
module Adapters {
  import opened Base

  // ---- base RAM size per ESP32 chip model ----

  /** `esp_chip_model_t` codes the lookup recognises. */
  const CHIP_ESP32: int := 1
  const CHIP_ESP32_S2: int := 2
  const CHIP_ESP32_C3: int := 5
  const CHIP_ESP32_H2: int := 6
  const CHIP_ESP32_S3: int := 9
  const CHIP_ESP32_C2: int := 12
  const CHIP_ESP32_C6: int := 13

  /** Independent statement of the on-chip RAM table, in KiB. */
  const CHIP_RAM_KB: map<int, nat> := map[
    CHIP_ESP32 := 520, CHIP_ESP32_S2 := 320, CHIP_ESP32_S3 := 512,
    CHIP_ESP32_C2 := 400, CHIP_ESP32_C3 := 400, CHIP_ESP32_C6 := 400,
    CHIP_ESP32_H2 := 256]

  /** `get_ram_size_kb`: the switch over the chip model, 0 for any model it
      does not list. */
  function RamSizeKb(model: int): (kb: nat)
    ensures kb != 0 <==> model in CHIP_RAM_KB
    ensures model in CHIP_RAM_KB ==> kb == CHIP_RAM_KB[model]
    ensures kb in {0, 256, 320, 400, 512, 520}
  {
    if model == CHIP_ESP32 then 520
    else if model == CHIP_ESP32_S2 then 320
    else if model == CHIP_ESP32_S3 then 512
    else if model == CHIP_ESP32_C2 || model == CHIP_ESP32_C3 || model == CHIP_ESP32_C6 then 400
    else if model == CHIP_ESP32_H2 then 256
    else 0
  }

  // ---- SPI RAM (PSRAM) size and use ----

  /** The return value (`total`) and the `*used` out-parameter of
      `setup_psram_size`, both C `int`s. */
  datatype PsramStats = PsramStats(total: int, used: int)

  /** `setup_psram_size` given the allocator's free and total SPI RAM sizes
      (`size_t`).  The total is read only when some SPI RAM is free, and the
      subtraction is the C one: `int - size_t` is computed in 32-bit
      unsigned arithmetic and stored back into an `int`. */
  function PsramSize(freeSize: uint32, totalSize: uint32): (r: PsramStats)
    ensures freeSize == 0 ==> r == PsramStats(0, 0)
    ensures freeSize > 0 ==> r.total == ToInt32(totalSize)
    ensures r.total <= 0 ==> r.used == 0
    ensures freeSize > 0 && r.total > 0 && freeSize <= r.total ==> r.used == r.total - freeSize
    ensures -TWO_31 <= r.used < TWO_31
    ensures freeSize > 0 && r.total > 0 ==> (r.total - freeSize - r.used) % TWO_32 == 0
  {
    if freeSize == 0 then
      PsramStats(0, 0)
    else
      var total := ToInt32(totalSize);
      if total > 0 then PsramStats(total, ToInt32(Wrap32(total - freeSize)))
      else PsramStats(total, 0)
  }

  // ---- TimeTicks (section 7.1.8 of RFC 2578: hundredths of a second, modulo 2^32) ----

  /** `get_uptime`: hundredths of a second since boot from the 32-bit
      millisecond counter. */
  function Uptime(millis: uint32): (ticks: uint32)
    ensures ticks * 10 <= millis < ticks * 10 + 10
  {
    millis / 10
  }

  /** The largest value `Uptime` can take: (2^32 - 1) / 10. */
  const MAX_UPTIME_TICKS: nat := 429496729

  lemma UptimeBound(millis: uint32)
    ensures Uptime(millis) <= MAX_UPTIME_TICKS
  {
  }

  /** `get_net_uptime`: hundredths of a second since the Wi-Fi connection.
      `connectedAt` is `None` when the build has no connection timestamp
      (`WIFI_CONNECTED_TIMESTAMP_AVAILABLE` undefined), which reads as 0.
      The difference is an unsigned 32-bit subtraction, so it stays right
      across one wrap of the millisecond counter. */
  function NetUptime(millis: uint32, connectedAt: Option<uint32>): (ticks: uint32)
    ensures connectedAt.None? ==> ticks == 0
    ensures connectedAt.Some? && connectedAt.value <= millis ==>
              ticks * 10 <= millis - connectedAt.value < ticks * 10 + 10
    ensures connectedAt.Some? && millis < connectedAt.value ==>
              ticks * 10 <= millis + TWO_32 - connectedAt.value < ticks * 10 + 10
  {
    match connectedAt
    case None => 0
    case Some(t) => Wrap32(millis - t) / 10
  }

  /** Whatever the counter did in between, as long as less than 2^32 ms have
      passed since the connection, the net uptime is that elapsed time in
      hundredths of a second. */
  lemma NetUptimeElapsed(connectedAt: uint32, elapsed: nat)
    requires elapsed < TWO_32
    ensures NetUptime(Wrap32(connectedAt + elapsed), Some(connectedAt)) == elapsed / 10
  {
    var now := Wrap32(connectedAt + elapsed);
    if connectedAt + elapsed < TWO_32 {
      assert now == connectedAt + elapsed;
    } else {
      assert now == connectedAt + elapsed - TWO_32;
      assert Wrap32(now - connectedAt) == elapsed;
    }
  }

  // ---- sensor tenths ----

  /** `static_cast<int>` of a real: truncation toward zero (idealised: the
      source computes in single-precision floating point). */
  function TruncateTowardZero(x: real): (n: int)
    ensures 0.0 <= x ==> n as real <= x < n as real + 1.0
    ensures x < 0.0 ==> n as real - 1.0 < x <= n as real
  {
    if 0.0 <= x then x.Floor else -((-x).Floor)
  }

  /** A sensor reading in one-decimal fixed point: `(int)(state * 10)`. */
  function Tenths(state: real): (n: int)
    ensures 0.0 <= state ==> 0 <= n && n as real <= state * 10.0 < n as real + 1.0
    ensures state < 0.0 ==> n <= 0 && n as real - 1.0 < state * 10.0 <= n as real
  {
    TruncateTowardZero(state * 10.0)
  }

  /** 21.45 is sent as 214: the tenths conversion truncates, it does not round. */
  lemma TenthsTruncates()
    ensures Tenths(21.45) == 214
    ensures Tenths(-21.45) == -214
  {
  }

  // ---- first IP address ----

  /** The IP-address provider given the station's addresses, each already
      rendered as text: the first one, or "" when there is none. */
  function IpAddressText(addresses: seq<string>): (r: string)
    ensures |addresses| == 0 ==> r == ""
    ensures |addresses| > 0 ==> r == addresses[0]
  {
    if |addresses| > 0 then addresses[0] else ""
  }
}
