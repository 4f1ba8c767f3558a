/** The words of the two-core mailbox and what core1 does with them. */
module MailboxProto {
  import opened Planner
  import opened Pio

  const CMD_SPEED: Word := 0
  const CMD_ACCEL: Word := 1
  const CMD_DECEL: Word := 2
  const CMD_MOVE: Word := 3
  const CMD_STOP: Word := 4
  const CMD_STATUS: Word := 5

  const ACK_OK: Word := 0
  const ACK_BUSY: Word := 1

  const STATUS_STATE: Word := 0
  const STATUS_MAX_SPEED: Word := 1
  const STATUS_ACCEL: Word := 2
  const STATUS_DECEL: Word := 3
  const STATUS_SPEED: Word := 4
  const STATUS_REMAINING: Word := 5

  /** The float encoding is a parameter: a speed is carried by its square, so it has a packing of its own. */
  datatype Floats = Floats(pack: real -> Word, unpack: Word -> real, packRoot: real -> Word)

  function ToInt32(w: Word): int {
    if w < 0x8000_0000 then w else w - WORD
  }

  function ToUint32(n: int): Word
    requires INT32_MIN <= n <= INT32_MAX
  {
    if n >= 0 then n else n + WORD
  }

  lemma Int32RoundTrip(n: int)
    requires INT32_MIN <= n <= INT32_MAX
    ensures ToInt32(ToUint32(n)) == n
  {
  }

  predicate Known(op: Word) {
    op <= CMD_STATUS
  }

  predicate HasPayload(op: Word) {
    Known(op) && op != CMD_STOP
  }

  function Decode(f: Floats, op: Word, payload: Word): Command {
    if op == CMD_SPEED then SetSpeed(f.unpack(payload))
    else if op == CMD_ACCEL then SetAccel(f.unpack(payload))
    else if op == CMD_DECEL then SetDecel(f.unpack(payload))
    else if op == CMD_MOVE then Move(ToInt32(payload))
    else if op == CMD_STOP then Stop
    else Query
  }

  function Status(f: Floats, m: Motion, field: Word): Word {
    if field == STATUS_STATE then (if m.moving then 1 else 0)
    else if field == STATUS_MAX_SPEED then f.pack(m.settings.maxSpeed)
    else if field == STATUS_ACCEL then f.pack(m.settings.accel)
    else if field == STATUS_DECEL then f.pack(m.settings.decel)
    else if field == STATUS_SPEED then f.packRoot(m.speed2)
    else if field == STATUS_REMAINING then
      (if INT32_MIN <= m.remaining <= INT32_MAX then ToUint32(m.remaining) else 0)
    else 0
  }

  /** The reply to a known command: the accepted setting, the acknowledgement, or the status field. */
  function Reply(f: Floats, m: Motion, op: Word, payload: Word): Word {
    var m' := Apply(m, Decode(f, op, payload));
    if op == CMD_SPEED then f.pack(m'.settings.maxSpeed)
    else if op == CMD_ACCEL then f.pack(m'.settings.accel)
    else if op == CMD_DECEL then f.pack(m'.settings.decel)
    else if op == CMD_MOVE then (if m.moving then ACK_BUSY else ACK_OK)
    else if op == CMD_STOP then ACK_OK
    else Status(f, m, payload)
  }

  /** A move is refused exactly while another is under way, and then changes nothing; an accepted one is under way. */
  lemma MoveReply(f: Floats, m: Motion, payload: Word)
    ensures var m', w := Apply(m, Decode(f, 3, payload)), Reply(f, m, 3, payload);
            && w == (if m.moving then 1 else 0)
            && (m.moving || payload == 0 ==> m' == m)
            && (!m.moving && 0 < payload < 0x8000_0000 ==> m' == Motion(true, m.settings, 2500.0, payload, false))
            && (!m.moving && 0x8000_0000 < payload ==>
                  m' == Motion(true, m.settings, 2500.0, 0x1_0000_0000 - payload, false))
  {
  }

  /** A setting is taken as sent if it is in range, and the reply is then the word sent. */
  lemma SettingIsEchoed(f: Floats, m: Motion, op: Word, payload: Word)
    requires op <= 2 && f.pack(f.unpack(payload)) == payload
    requires if op == 0 then IsSpeed(f.unpack(payload)) else IsRate(f.unpack(payload))
    ensures var v, m' := f.unpack(payload), Apply(m, Decode(f, op, payload));
            && Reply(f, m, op, payload) == payload
            && m' == m.(settings :=
                          if op == 0 then m.settings.(maxSpeed := v)
                          else if op == 1 then m.settings.(accel := v)
                          else m.settings.(decel := v))
  {
  }

  /** One that is not is replaced, and the reply is the packing of what took its place. */
  lemma SettingIsReplaced(f: Floats, m: Motion, op: Word, payload: Word)
    requires op <= 2
    requires !if op == 0 then IsSpeed(f.unpack(payload)) else IsRate(f.unpack(payload))
    ensures var v, m' := f.unpack(payload), Apply(m, Decode(f, op, payload));
            if op == 0 then
              m'.settings == m.settings.(maxSpeed := if v < 50.0 then 50.0 else 160000.0)
              && Reply(f, m, op, payload) == f.pack(m'.settings.maxSpeed)
            else
              m'.settings == (if op == 1 then m.settings.(accel := 1000000.0) else m.settings.(decel := 1000000.0))
              && Reply(f, m, op, payload) == f.pack(1000000.0)
  {
  }

  /** A status query changes nothing, and each of its fields says what it is named for; others read as 0. */
  lemma StatusReports(f: Floats, m: Motion, field: Word)
    requires Planner.Valid(m)
    ensures var w := Reply(f, m, 5, field);
            && Apply(m, Decode(f, 5, field)) == m
            && (field == 0 ==> w <= 1 && (w == 1 <==> m.moving))
            && (field == 1 ==> w == f.pack(m.settings.maxSpeed))
            && (field == 2 ==> w == f.pack(m.settings.accel))
            && (field == 3 ==> w == f.pack(m.settings.decel))
            && (field == 4 ==> w == f.packRoot(m.speed2))
            && (field == 5 ==> ToInt32(w) == m.remaining)
            && (field > 5 ==> w == 0)
  {
  }

  /** A stop is always acknowledged, and is pending afterwards exactly if a move was under way. */
  lemma StopReply(f: Floats, m: Motion, payload: Word)
    requires Planner.Valid(m)
    ensures Reply(f, m, 4, payload) == 0 && Apply(m, Decode(f, 4, payload)) == m.(stopReq := m.moving)
  {
  }
}
