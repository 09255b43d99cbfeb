/** Transport packets and the fields of their headers. */
module TsPacket {
  const TS_SYNC_BYTE: bv8 := 0x47
  const MAX_CSA_PID := 0x1fff

  type Packet = p: seq<bv8> | |p| == 188 witness seq(188, _ => 0)

  function Pid(p: Packet): (pid: int)
    ensures 0 <= pid <= MAX_CSA_PID
  {
    (p[1] as int * 256 + p[2] as int) % 0x2000
  }

  /** Where the payload begins; beyond the end if the adaptation field is too long. */
  function Offset(p: Packet): (o: nat)
    ensures 4 <= o <= 260
  {
    if p[3] & 0x20 == 0x20 then 4 + p[4] as int + 1 else 4
  }
}
