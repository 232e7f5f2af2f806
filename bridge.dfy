/**
 * The bridge firmware: which user channel (`Serial` over USB or `SerialBT`
 * over Bluetooth SPP) owns the UART `Serial1`, the magic word "menu" that
 * switches a channel into the configuration CLI, the owner timeout, and the
 * handlers of the CLI commands that read and change the persistent
 * configuration.
 *
 * Each entry point is one atomic step (the FreeRTOS mutex is not modelled);
 * `millis()` is the parameter `now`; what a step writes to each transport is
 * its `Writes` result.
 */
module Bridge {
  import opened Wrappers
  import opened LittleEndian
  import opened ArduinoText
  import opened Streams
  import opened MenuCliLib
  import opened ConfigStore

  /** `enum class SerialState`. */
  datatype SerialState = Menu | Idle | SerialForward | SerialBTForward

  /** The two user-facing entry points: `onSerialData` and `onSerialBTData`. */
  datatype Channel = SerialChannel | BtChannel

  /** The command handlers `registerMenuCommands` installs, by key. */
  datatype Handler = GetBaudSerial1 | SetBaudSerial1 | GetBaudSerial | SetBaudSerial | GetBtName | SetBtName | EchoOn | EchoOff

  /** The exit callback installed by `setup`: back to `Idle`. */
  datatype ExitCallback = ReturnToIdle

  const Magic: string := "menu"
  const MagicLen: nat := 4
  const OwnerTimeout: u32 := 2000
  const MenuEntered: string := "\n[Menu mode entered]\r\n"

  predicate IsForward(s: SerialState) {
    s == SerialForward || s == SerialBTForward
  }

  /** The transport a channel reads from. */
  function PortOf(ch: Channel): Port {
    if ch == SerialChannel then Serial else SerialBT
  }

  /** The other user transport. */
  function PeerPort(ch: Channel): Port {
    if ch == SerialChannel then SerialBT else Serial
  }

  /** The state in which the channel owns `Serial1`. */
  function Owning(ch: Channel): SerialState {
    if ch == SerialChannel then SerialForward else SerialBTForward
  }

  /** The error line a channel gets while the other channel owns `Serial1`. */
  function NotOwner(ch: Channel): string {
    if ch == SerialChannel then "ERROR: Serial does not own Serial1.\r\n" else "ERROR: SerialBT does not own Serial1.\r\n"
  }

  // ---------------------------------------------------------------------------
  // The owner timeout
  // ---------------------------------------------------------------------------

  /** `millis() - last` in `unsigned long` (32-bit) arithmetic: the difference modulo 2^32. */
  function Elapsed(last: u32, now: u32): (r: u32)
    ensures now >= last ==> r as int == now as int - last as int
    ensures now < last ==> r as int == now as int + 0x1_0000_0000 - last as int
  {
    ((now as int - last as int) % 0x1_0000_0000) as u32
  }

  /** `millis() - last > ownerTimeout`. */
  predicate Expired(last: u32, now: u32) {
    Elapsed(last, now) > OwnerTimeout
  }

  /** Across the wrap-around of `millis()` the elapsed time is still measured correctly: 512 ms is not a timeout. */
  lemma NoTimeoutAcrossRollover()
    ensures !Expired(0xFFFF_FF00, 0x100)
  {
  }

  /**
   * The state after `checkOwnerTimeout`: a forwarding owner whose last
   * activity is more than 2000 ms old is dropped to `Idle`; nothing else changes.
   */
  function AfterTimeout(s: SerialState, last: u32, now: u32): (r: SerialState)
    ensures r != s <==> IsForward(s) && Expired(last, now)
    ensures r != s ==> r == Idle
  {
    if IsForward(s) && Expired(last, now) then Idle else s
  }

  // ---------------------------------------------------------------------------
  // Matching the magic word while Idle
  // ---------------------------------------------------------------------------

  /**
   * How the `while (firstLineLen < 4 && processed < len)` loop ends, started
   * with cursor k at position i: out of input with cursor `cursor`, at a
   * byte that differs from the magic word, or with the word complete after
   * `processed` bytes.
   */
  datatype Scan = Pending(cursor: nat) | Mismatch | Matched(processed: nat)

  function ScanFrom(k: nat, buf: string, i: nat): (r: Scan)
    requires k < MagicLen && i <= |buf|
    ensures r.Pending? ==> r.cursor < MagicLen
    ensures r.Matched? ==> i < r.processed <= |buf|
    decreases |buf| - i
  {
    if i == |buf| then Pending(k)
    else if buf[i] != Magic[k] then Mismatch
    else if k + 1 == MagicLen then Matched(i + 1)
    else ScanFrom(k + 1, buf, i + 1)
  }

  lemma {:induction false} ScanContinues(k: nat, buf: string, i: nat)
    requires k < MagicLen && i <= |buf| && k + (|buf| - i) < MagicLen
    requires forall m :: i <= m < |buf| ==> buf[m] == Magic[k + m - i]
    ensures ScanFrom(k, buf, i) == Pending(k + |buf| - i)
    decreases |buf| - i
  {
    if i < |buf| {
      ScanContinues(k + 1, buf, i + 1);
    }
  }

  lemma {:induction false} ScanStopsAtMismatch(k: nat, buf: string, i: nat, j: nat)
    requires k < MagicLen && i <= j < |buf| && k + (j - i) < MagicLen
    requires forall m :: i <= m < j ==> buf[m] == Magic[k + m - i]
    requires buf[j] != Magic[k + j - i]
    ensures ScanFrom(k, buf, i) == Mismatch
    decreases j - i
  {
    if i < j {
      ScanStopsAtMismatch(k + 1, buf, i + 1, j);
    }
  }

  lemma {:induction false} ScanCompletes(k: nat, buf: string, i: nat)
    requires k < MagicLen && i + (MagicLen - k) <= |buf|
    requires forall m :: i <= m < i + (MagicLen - k) ==> buf[m] == Magic[k + m - i]
    ensures ScanFrom(k, buf, i) == Matched(i + MagicLen - k)
    decreases MagicLen - k
  {
    if k + 1 < MagicLen {
      ScanCompletes(k + 1, buf, i + 1);
    }
  }

  // ---------------------------------------------------------------------------
  // One chunk from a user channel
  // ---------------------------------------------------------------------------

  /** What a user-channel step reads and changes: the state, that channel's cursor, the CLI's line buffer. */
  datatype Snap = Snap(state: SerialState, cursor: nat, line: string)

  /**
   * What entering Menu writes: the notice to the calling channel, then
   * `menuCLI.begin()`'s prompt once per attached output. No other port
   * receives anything.
   */
  function EnterWrites(ch: Channel, outs: seq<Port>): (w: Writes)
    ensures forall p :: To(w, p) == (if p == PortOf(ch) then MenuEntered else []) + Repeat(Prompt, Count(outs, p))
    ensures Serial1 !in outs ==> To(w, Serial1) == []
    ensures MenuEntered <= To(w, PortOf(ch))
  {
    var w0 := Emit(NoWrites, PortOf(ch), MenuEntered);
    var prompt := Broadcast<Handler>(outs, Prompt);
    DeliverBroadcast<Handler>(w0, outs, Prompt);
    var w := Deliver(w0, prompt);
    assert forall p :: To(w, p) == (if p == PortOf(ch) then MenuEntered else []) + Repeat(Prompt, Count(outs, p)) by {
      forall p ensures To(w, p) == (if p == PortOf(ch) then MenuEntered else []) + Repeat(Prompt, Count(outs, p)) {
        EmitAllContents(w0, outs, Prompt, p);
        assert To(w0, p) == if p == PortOf(ch) then MenuEntered else [];
      }
    }
    w
  }

  /**
   * `onSerialData` / `onSerialBTData` on a chunk `buf`: the new snapshot and
   * the writes. `echo`, `es` and `outs` are the CLI's echo flag, command
   * table and outputs, which a step does not change.
   */
  function UserData(ch: Channel, st: Snap, buf: string, echo: bool, es: seq<Entry<Handler>>, outs: seq<Port>): (r: (Snap, Writes))
    requires st.cursor < MagicLen && MultiWordKeys(es)
    ensures r.0.cursor < MagicLen
    decreases if st.state == Idle then 1 else 0, |buf|
  {
    match st.state
    case Idle =>
      (match ScanFrom(st.cursor, buf, 0)
       case Pending(k) => (st.(cursor := k), NoWrites)
       case Mismatch => UserData(ch, Snap(Owning(ch), 0, st.line), buf, echo, es, outs)
       case Matched(n) =>
         var w1 := EnterWrites(ch, outs);
         var entered := Snap(Menu, 0, []);
         if n < |buf| then
           var (st2, w2) := UserData(ch, entered, buf[n..], echo, es, outs);
           (st2, Then(w1, w2))
         else
           (entered, w1))
    case Menu =>
      var (l, evs) := Feed(st.line, echo, es, outs, buf);
      FeedNoCalls(st.line, echo, es, outs, buf);
      (st.(line := l), Deliver(NoWrites, evs))
    case _ =>
      if st.state == Owning(ch) then
        (st, Emit(Emit(NoWrites, PeerPort(ch), buf), Serial1, buf))
      else
        (st, Emit(Emit(NoWrites, PeerPort(ch), buf), PortOf(ch), NotOwner(ch)))
  }

  /**
   * While Idle, a chunk that only continues the partial match writes
   * nothing, keeps Idle and advances the cursor by its length.
   */
  lemma IdlePartialMatchWaits(ch: Channel, st: Snap, buf: string, echo: bool, es: seq<Entry<Handler>>, outs: seq<Port>)
    requires st.state == Idle && st.cursor + |buf| < MagicLen && MultiWordKeys(es)
    requires buf == Magic[st.cursor..st.cursor + |buf|]
    ensures UserData(ch, st, buf, echo, es, outs) == (Snap(Idle, st.cursor + |buf|, st.line), NoWrites)
  {
    forall m | 0 <= m < |buf| ensures buf[m] == Magic[st.cursor + m] {
      assert buf[m] == Magic[st.cursor..st.cursor + |buf|][m];
    }
    ScanContinues(st.cursor, buf, 0);
  }

  /**
   * While Idle, the first byte that differs from the magic word makes the
   * calling channel the owner with its cursor reset, and the whole chunk,
   * including the bytes that did match, goes to the two other transports.
   */
  lemma IdleMismatchClaims(ch: Channel, st: Snap, buf: string, echo: bool, es: seq<Entry<Handler>>, outs: seq<Port>, j: nat)
    requires st.state == Idle && j < |buf| && st.cursor + j < MagicLen && MultiWordKeys(es)
    requires buf[..j] == Magic[st.cursor..st.cursor + j] && buf[j] != Magic[st.cursor + j]
    ensures var (st', w) := UserData(ch, st, buf, echo, es, outs);
            && st' == Snap(Owning(ch), 0, st.line)
            && To(w, PeerPort(ch)) == buf && To(w, Serial1) == buf && To(w, PortOf(ch)) == []
  {
    forall m | 0 <= m < j ensures buf[m] == Magic[st.cursor + m] {
      assert buf[m] == buf[..j][m];
    }
    ScanStopsAtMismatch(st.cursor, buf, 0, j);
  }

  /**
   * While Idle, completing the magic word enters Menu with the cursor reset:
   * the calling channel is told, the CLI starts afresh on the bytes after
   * the word, and nothing reaches `Serial1`, so the word itself is never
   * forwarded.
   */
  lemma IdleMatchEntersMenu(ch: Channel, st: Snap, buf: string, echo: bool, es: seq<Entry<Handler>>, outs: seq<Port>)
    requires st.state == Idle && st.cursor < MagicLen && MultiWordKeys(es) && Serial1 !in outs
    requires MagicLen - st.cursor <= |buf| && buf[..MagicLen - st.cursor] == Magic[st.cursor..]
    ensures var n := MagicLen - st.cursor;
            var (line, evs) := Feed([], echo, es, outs, buf[n..]);
            var (st', w) := UserData(ch, st, buf, echo, es, outs);
            && st' == Snap(Menu, 0, line)
            && OutputsOnly(evs, outs)
            && w == Then(EnterWrites(ch, outs), Deliver(NoWrites, evs))
            && To(w, Serial1) == []
  {
    var n := MagicLen - st.cursor;
    assert ScanFrom(st.cursor, buf, 0) == Matched(n) by {
      forall m | 0 <= m < n ensures buf[m] == Magic[st.cursor + m] {
        assert buf[m] == buf[..n][m];
      }
      ScanCompletes(st.cursor, buf, 0);
    }
    var (line, evs) := Feed([], echo, es, outs, buf[n..]);
    IdleMatchResult(ch, st, buf, echo, es, outs, n, line, evs);
  }

  /** What the Idle step returns once the scan has matched the word after n bytes. */
  lemma IdleMatchResult(ch: Channel, st: Snap, buf: string, echo: bool, es: seq<Entry<Handler>>, outs: seq<Port>,
                        n: nat, line: string, evs: seq<Event<Handler>>)
    requires st.state == Idle && st.cursor < MagicLen && MultiWordKeys(es) && Serial1 !in outs
    requires ScanFrom(st.cursor, buf, 0) == Matched(n)
    requires n <= |buf| && Feed([], echo, es, outs, buf[n..]) == (line, evs)
    ensures OutputsOnly(evs, outs)
    ensures UserData(ch, st, buf, echo, es, outs) == (Snap(Menu, 0, line), Then(EnterWrites(ch, outs), Deliver(NoWrites, evs)))
    ensures To(Then(EnterWrites(ch, outs), Deliver(NoWrites, evs)), Serial1) == []
  {
    if n == |buf| {
      assert buf[n..] == [];
      assert line == [] && evs == [];
      IdleMatchAtEnd(ch, st, buf, echo, es, outs, n);
    } else {
      IdleMatchBeforeEnd(ch, st, buf, echo, es, outs, n, line, evs);
    }
    EnterThenMenuQuiet(ch, outs, evs);
  }

  /** The word ends the chunk: only the Menu banner and the prompt are written. */
  lemma IdleMatchAtEnd(ch: Channel, st: Snap, buf: string, echo: bool, es: seq<Entry<Handler>>, outs: seq<Port>, n: nat)
    requires st.state == Idle && st.cursor < MagicLen && MultiWordKeys(es)
    requires ScanFrom(st.cursor, buf, 0) == Matched(n) && n == |buf|
    ensures UserData(ch, st, buf, echo, es, outs) == (Snap(Menu, 0, []), Then(EnterWrites(ch, outs), Deliver<Handler>(NoWrites, [])))
  {
    IdleMatchStep(ch, st, buf, echo, es, outs, n);
    ThenNothing(EnterWrites(ch, outs));
  }

  /** Bytes follow the word in the chunk: they go to the CLI, which starts on an empty line. */
  lemma IdleMatchBeforeEnd(ch: Channel, st: Snap, buf: string, echo: bool, es: seq<Entry<Handler>>, outs: seq<Port>,
                           n: nat, line: string, evs: seq<Event<Handler>>)
    requires st.state == Idle && st.cursor < MagicLen && MultiWordKeys(es)
    requires ScanFrom(st.cursor, buf, 0) == Matched(n)
    requires n < |buf| && Feed([], echo, es, outs, buf[n..]) == (line, evs)
    ensures OutputsOnly(evs, outs)
    ensures UserData(ch, st, buf, echo, es, outs) == (Snap(Menu, 0, line), Then(EnterWrites(ch, outs), Deliver(NoWrites, evs)))
  {
    IdleMatchStep(ch, st, buf, echo, es, outs, n);
    UserDataInMenu(ch, Snap(Menu, 0, []), buf[n..], echo, es, outs);
  }

  /** Entering Menu and then printing only on the CLI's outputs writes nothing to `Serial1`. */
  lemma EnterThenMenuQuiet(ch: Channel, outs: seq<Port>, evs: seq<Event<Handler>>)
    requires OutputsOnly(evs, outs) && Serial1 !in outs
    ensures To(Then(EnterWrites(ch, outs), Deliver(NoWrites, evs)), Serial1) == []
  {
    DeliverOtherPort(NoWrites, evs, Serial1);
  }

  /** The Idle step while the scan is still pending: only the cursor moves. */
  lemma IdlePendingStep(ch: Channel, st: Snap, buf: string, echo: bool, es: seq<Entry<Handler>>, outs: seq<Port>, k: nat)
    requires st.state == Idle && st.cursor < MagicLen && MultiWordKeys(es)
    requires ScanFrom(st.cursor, buf, 0) == Pending(k)
    ensures UserData(ch, st, buf, echo, es, outs) == (st.(cursor := k), NoWrites)
  {
  }

  /** The Idle step once the scan has hit a mismatch: the chunk is handled as the channel's own. */
  lemma IdleMismatchStep(ch: Channel, st: Snap, buf: string, echo: bool, es: seq<Entry<Handler>>, outs: seq<Port>)
    requires st.state == Idle && st.cursor < MagicLen && MultiWordKeys(es)
    requires ScanFrom(st.cursor, buf, 0) == Mismatch
    ensures UserData(ch, st, buf, echo, es, outs) == UserData(ch, Snap(Owning(ch), 0, st.line), buf, echo, es, outs)
  {
  }

  /** The Idle step once the scan has matched the word after n bytes. */
  lemma IdleMatchStep(ch: Channel, st: Snap, buf: string, echo: bool, es: seq<Entry<Handler>>, outs: seq<Port>, n: nat)
    requires st.state == Idle && st.cursor < MagicLen && MultiWordKeys(es)
    requires ScanFrom(st.cursor, buf, 0) == Matched(n)
    ensures n <= |buf|
    ensures var entered := Snap(Menu, 0, []);
            UserData(ch, st, buf, echo, es, outs) ==
              if n < |buf| then
                var r := UserData(ch, entered, buf[n..], echo, es, outs);
                (r.0, Then(EnterWrites(ch, outs), r.1))
              else (entered, EnterWrites(ch, outs))
  {
  }

  /** In Menu a chunk only goes through the CLI: the new line buffer and what the CLI prints. */
  lemma UserDataInMenu(ch: Channel, st: Snap, buf: string, echo: bool, es: seq<Entry<Handler>>, outs: seq<Port>)
    requires st.state == Menu && st.cursor < MagicLen && MultiWordKeys(es)
    ensures var (line, evs) := Feed(st.line, echo, es, outs, buf);
            && OutputsOnly(evs, outs)
            && UserData(ch, st, buf, echo, es, outs) == (st.(line := line), Deliver(NoWrites, evs))
  {
    FeedNoCalls(st.line, echo, es, outs, buf);
  }

  /** The owner's chunk goes to the other two transports and never back to itself. */
  lemma OwnerForwards(ch: Channel, st: Snap, buf: string, echo: bool, es: seq<Entry<Handler>>, outs: seq<Port>)
    requires st.state == Owning(ch) && st.cursor < MagicLen && MultiWordKeys(es)
    ensures var (st', w) := UserData(ch, st, buf, echo, es, outs);
            && st' == st
            && To(w, PeerPort(ch)) == buf && To(w, Serial1) == buf && To(w, PortOf(ch)) == []
  {
  }

  /**
   * While the other channel owns `Serial1`, the chunk goes to that channel
   * only, the caller gets the error line, and nothing changes.
   */
  lemma NonOwnerRejected(ch: Channel, st: Snap, buf: string, echo: bool, es: seq<Entry<Handler>>, outs: seq<Port>)
    requires IsForward(st.state) && st.state != Owning(ch) && st.cursor < MagicLen && MultiWordKeys(es)
    ensures var (st', w) := UserData(ch, st, buf, echo, es, outs);
            && st' == st
            && To(w, Serial1) == [] && To(w, PeerPort(ch)) == buf && To(w, PortOf(ch)) == NotOwner(ch)
  {
  }

  /**
   * Ownership never passes directly from one channel to the other: in a
   * forwarding state no chunk from either channel changes anything. Only
   * the timeout ends it.
   */
  lemma NoDirectHandover(ch: Channel, st: Snap, buf: string, echo: bool, es: seq<Entry<Handler>>, outs: seq<Port>)
    requires IsForward(st.state) && st.cursor < MagicLen && MultiWordKeys(es)
    ensures UserData(ch, st, buf, echo, es, outs).0 == st
  {
    if st.state == Owning(ch) {
      OwnerForwards(ch, st, buf, echo, es, outs);
    } else {
      NonOwnerRejected(ch, st, buf, echo, es, outs);
    }
  }

  /**
   * Menu is never left: chunks go to the CLI, nothing reaches `Serial1`, and
   * the timeout does not apply (`exit` is not a command the CLI handles, and
   * the exit callback is never called).
   */
  lemma MenuIsAbsorbing(ch: Channel, st: Snap, buf: string, echo: bool, es: seq<Entry<Handler>>, outs: seq<Port>, last: u32, now: u32)
    requires st.state == Menu && st.cursor < MagicLen && MultiWordKeys(es) && Serial1 !in outs
    ensures var (st', w) := UserData(ch, st, buf, echo, es, outs);
            && st' == st.(line := Feed(st.line, echo, es, outs, buf).0)
            && To(w, Serial1) == []
    ensures AfterTimeout(Menu, last, now) == Menu
  {
    var (l, evs) := Feed(st.line, echo, es, outs, buf);
    FeedNoCalls(st.line, echo, es, outs, buf);
    DeliverOtherPort(NoWrites, evs, Serial1);
  }

  /**
   * After the owner times out, the next byte from either channel that does
   * not continue that channel's cursor makes that channel the owner.
   */
  lemma ClaimAfterTimeout(ch: Channel, owner: SerialState, last: u32, now: u32, cursor: nat, line: string,
                          buf: string, echo: bool, es: seq<Entry<Handler>>, outs: seq<Port>)
    requires IsForward(owner) && Expired(last, now)
    requires cursor < MagicLen && |buf| > 0 && buf[0] != Magic[cursor] && MultiWordKeys(es)
    ensures AfterTimeout(owner, last, now) == Idle
    ensures UserData(ch, Snap(AfterTimeout(owner, last, now), cursor, line), buf, echo, es, outs).0 == Snap(Owning(ch), 0, line)
  {
    assert buf[..0] == Magic[cursor..cursor];
    IdleMismatchClaims(ch, Snap(Idle, cursor, line), buf, echo, es, outs, 0);
  }

  // ---------------------------------------------------------------------------
  // struct Config and its byte image
  // ---------------------------------------------------------------------------

  /** `sizeof(Config)`: `char bt_name[32]` then four `uint32_t` fields, little-endian. */
  const ConfigSize: nat := 48
  const NameSize: nat := 32
  const SerialBaudAt: nat := 32
  const Serial1BaudAt: nat := 36
  const Serial1RxAt: nat := 40
  const Serial1TxAt: nat := 44

  /** A character as the byte a `char` holds. */
  function ByteOf(c: char): byte {
    (c as int % 256) as byte
  }

  function CharOf(b: byte): char {
    (b as int) as char
  }

  /** The `uint32_t` field at offset `at`. */
  function FieldU32(img: seq<byte>, at: nat): u32
    requires at + 4 <= |img|
  {
    BytesToU32(img[at..at + 4])
  }

  /** The image with `v` stored in the `uint32_t` field at `at`: that field reads v, every other byte is kept. */
  function WithU32(img: seq<byte>, at: nat, v: u32): (r: seq<byte>)
    requires at + 4 <= |img|
    ensures |r| == |img| && r[at..at + 4] == U32ToBytes(v) && FieldU32(r, at) == v
    ensures forall i :: 0 <= i < |img| && !(at <= i < at + 4) ==> r[i] == img[i]
  {
    var r := img[..at] + U32ToBytes(v) + img[at + 4..];
    assert r[at..at + 4] == U32ToBytes(v);
    BytesToU32OfU32ToBytes(v);
    r
  }

  /** The bytes of a text (one per character). */
  function Bytes(s: string): (r: seq<byte>)
    ensures |r| == |s|
  {
    seq(|s|, i requires 0 <= i < |s| => ByteOf(s[i]))
  }

  /** A 32-byte `char` array initialised from a shorter string literal: the characters, then NULs. */
  function NameField(name: string): (r: seq<byte>)
    requires |name| < NameSize
    ensures |r| == NameSize && r[..|name|] == Bytes(name)
    ensures forall i :: |name| <= i < NameSize ==> r[i] == 0
  {
    Bytes(name) + seq(NameSize - |name|, _ => 0 as byte)
  }

  /** The field defaults of `struct Config`. */
  function DefaultConfig(): (r: seq<byte>)
    ensures |r| == ConfigSize
    ensures r[..NameSize] == NameField("LC29HEA-BT")
    ensures FieldU32(r, SerialBaudAt) == 460800 && FieldU32(r, Serial1BaudAt) == 460800
    ensures FieldU32(r, Serial1RxAt) == 7 && FieldU32(r, Serial1TxAt) == 8
  {
    var r := NameField("LC29HEA-BT") + U32ToBytes(460800) + U32ToBytes(460800) + U32ToBytes(7) + U32ToBytes(8);
    assert r[SerialBaudAt..SerialBaudAt + 4] == U32ToBytes(460800);
    assert r[Serial1BaudAt..Serial1BaudAt + 4] == U32ToBytes(460800);
    assert r[Serial1RxAt..Serial1RxAt + 4] == U32ToBytes(7);
    assert r[Serial1TxAt..Serial1TxAt + 4] == U32ToBytes(8);
    BytesToU32OfU32ToBytes(460800);
    BytesToU32OfU32ToBytes(7);
    BytesToU32OfU32ToBytes(8);
    r
  }

  /** A NUL-terminated `char` array read as text: the characters before the first NUL. */
  function CString(b: seq<byte>): (r: string)
    ensures |r| <= |b|
  {
    if b == [] || b[0] == 0 then [] else [CharOf(b[0])] + CString(b[1..])
  }

  /**
   * `name.toCharArray(config.bt_name, 32)`: at most 31 characters copied as
   * `strncpy` copies them (a NUL in the text ends the copy and pads with
   * NULs), then a terminating NUL; the bytes after it are kept.
   */
  function ToCharArray(field: seq<byte>, name: string): (r: seq<byte>)
    requires |field| == NameSize
    ensures |r| == NameSize
  {
    var n := if |name| < NameSize - 1 then |name| else NameSize - 1;
    var z := IndexOf(name, '\0');
    seq(n, i requires 0 <= i < n => if z != -1 && i >= z then 0 else ByteOf(name[i])) + [0] + field[n + 1..]
  }

  /** Characters that fit a byte and are not NUL. */
  predicate PlainBytes(s: string) {
    forall i :: 0 <= i < |s| ==> 0 < s[i] as int < 256
  }

  lemma {:induction false} CStringOfTerminated(s: string, rest: seq<byte>)
    requires PlainBytes(s)
    ensures CString(Bytes(s) + [0] + rest) == s
    decreases |s|
  {
    var b := Bytes(s) + [0] + rest;
    if s != [] {
      assert b[0] == ByteOf(s[0]) && CharOf(ByteOf(s[0])) == s[0];
      assert b[1..] == Bytes(s[1..]) + [0] + rest;
      CStringOfTerminated(s[1..], rest);
      assert s == [s[0]] + s[1..];
    }
  }

  /** A name `set bt_name` accepts is exactly what `get bt_name` then prints. */
  lemma NameRoundTrip(field: seq<byte>, name: string)
    requires |field| == NameSize && 0 < |name| < NameSize && PlainBytes(name)
    ensures CString(ToCharArray(field, name)) == name
  {
    assert '\0' !in name;
    var r := ToCharArray(field, name);
    assert r == Bytes(name) + [0] + field[|name| + 1..];
    CStringOfTerminated(name, field[|name| + 1..]);
  }

  /**
   * `args.toInt()` as the `set baud` handlers check it: a value <= 0 is
   * refused; any other is a positive `long`, which the `uint32_t` field holds
   * unchanged.
   */
  function ParseBaud(args: string): (r: Option<u32>)
    ensures r.None? <==> ToInt(args) <= 0
    ensures r.Some? ==> r.value as int == ToInt(args) && 0 < r.value as int <= LongMax
  {
    var baud := ToInt(args);
    if baud <= 0 then None else Some(baud as u32)
  }

  /**
   * A rate up to the largest `long`, written in decimal, is accepted by
   * `set baud` as exactly that rate, and `get baud` prints it back.
   */
  lemma BaudRoundTrip(img: seq<byte>, at: nat, n: nat)
    requires 0 < n <= LongMax && at + 4 <= |img|
    ensures ParseBaud(Decimal(n)) == Some(n as u32)
    ensures Decimal(FieldU32(WithU32(img, at, n as u32), at) as nat) == Decimal(n)
  {
    ToIntOfDecimal(n);
    assert ToInt(Decimal(n)) == n;
  }

  /** A larger rate is not refused: `toInt` saturates, so the largest `long` is stored instead. */
  lemma BaudSaturates(n: nat)
    requires n > LongMax
    ensures ParseBaud(Decimal(n)) == Some(LongMax as u32)
  {
    ToIntOfDecimal(n);
  }

  /** The name `set bt_name` accepts: the trimmed argument, when it has 1 to 31 characters. */
  function ParseName(args: string): (r: Option<string>)
    ensures r.Some? <==> 0 < |Trim(args)| < NameSize
    ensures r.Some? ==> r.value == Trim(args)
  {
    var name := Trim(args);
    if |name| == 0 || |name| >= NameSize then None else Some(name)
  }

  // ---------------------------------------------------------------------------
  // The firmware's globals
  // ---------------------------------------------------------------------------

  /** Registers a command whose key has a space in it. */
  method RegisterMultiWord(cli: MenuCli<Handler, ExitCallback>, cmd: string, help: string, handler: Handler)
    requires cli.Valid() && MultiWordKeys(cli.commands) && ' ' in cmd
    modifies cli`commands
    ensures cli.Valid() && MultiWordKeys(cli.commands)
    ensures cli.commands == Insert(old(cli.commands), Entry(cmd, help, handler))
  {
    ghost var before := cli.commands;
    cli.RegisterCommand(cmd, help, handler);
    InsertMultiWord(before, Entry(cmd, help, handler));
  }

  /** The eight commands of `registerMenuCommands`, in the order it registers them. */
  function MenuEntries(): (r: seq<Entry<Handler>>)
    ensures |r| == 8
  {
    [ Entry("get baud serial1", "Show Serial1 baudrate", GetBaudSerial1),
      Entry("set baud serial1", "Set Serial1 baudrate. Usage: set baud serial1 <baudrate>", SetBaudSerial1),
      Entry("get baud serial", "Show Serial baudrate", GetBaudSerial),
      Entry("set baud serial", "Set Serial baudrate. Usage: set baud serial <baudrate>", SetBaudSerial),
      Entry("get bt_name", "Show Bluetooth device name", GetBtName),
      Entry("set bt_name", "Set Bluetooth device name. Usage: set bt_name <name>", SetBtName),
      Entry("echo on", "Enable echo mode", EchoOn),
      Entry("echo off", "Disable echo mode", EchoOff) ]
  }

  /** No two of the eight commands share a key. */
  lemma MenuKeysDistinct()
    ensures forall j, k :: 0 <= j < k < |MenuEntries()| ==> MenuEntries()[j].key != MenuEntries()[k].key
  {
  }

  /**
   * After the eight registrations each of their keys finds its own entry,
   * and every other key finds what it found before.
   */
  lemma MenuCommandsFound(es: seq<Entry<Handler>>, key: string)
    ensures Find(InsertAll(es, MenuEntries()), key) ==
              if exists i :: 0 <= i < 8 && MenuEntries()[i].key == key then LastWithKey(MenuEntries(), key) else Find(es, key)
    ensures forall i :: 0 <= i < 8 ==> Find(InsertAll(es, MenuEntries()), MenuEntries()[i].key) == Some(MenuEntries()[i])
  {
    var ns := MenuEntries();
    FindInsertAll(es, ns, key);
    MenuKeysDistinct();
    forall i | 0 <= i < 8 ensures Find(InsertAll(es, ns), ns[i].key) == Some(ns[i]) {
      FindInsertAll(es, ns, ns[i].key);
      LastWithDistinctKey(ns, i);
    }
  }

  /** `registerMenuCommands(cli)`: the eight commands, every key two or three words. */
  method RegisterMenuCommands(cli: MenuCli<Handler, ExitCallback>)
    requires cli.Valid() && MultiWordKeys(cli.commands)
    modifies cli`commands
    ensures cli.Valid() && MultiWordKeys(cli.commands)
    ensures cli.commands == InsertAll(old(cli.commands), MenuEntries())
  {
    ghost var ns := MenuEntries();
    ghost var es := cli.commands;
    assert es == InsertAll(es, ns[..0]);
    var k := "get baud serial1";
    assert k[3] == ' ';
    RegisterMultiWord(cli, k, "Show Serial1 baudrate", GetBaudSerial1);
    InsertAllStep(es, ns, 0);
    k := "set baud serial1";
    assert k[3] == ' ';
    RegisterMultiWord(cli, k, "Set Serial1 baudrate. Usage: set baud serial1 <baudrate>", SetBaudSerial1);
    InsertAllStep(es, ns, 1);
    k := "get baud serial";
    assert k[3] == ' ';
    RegisterMultiWord(cli, k, "Show Serial baudrate", GetBaudSerial);
    InsertAllStep(es, ns, 2);
    k := "set baud serial";
    assert k[3] == ' ';
    RegisterMultiWord(cli, k, "Set Serial baudrate. Usage: set baud serial <baudrate>", SetBaudSerial);
    InsertAllStep(es, ns, 3);
    k := "get bt_name";
    assert k[3] == ' ';
    RegisterMultiWord(cli, k, "Show Bluetooth device name", GetBtName);
    InsertAllStep(es, ns, 4);
    k := "set bt_name";
    assert k[3] == ' ';
    RegisterMultiWord(cli, k, "Set Bluetooth device name. Usage: set bt_name <name>", SetBtName);
    InsertAllStep(es, ns, 5);
    k := "echo on";
    assert k[4] == ' ';
    RegisterMultiWord(cli, k, "Enable echo mode", EchoOn);
    InsertAllStep(es, ns, 6);
    k := "echo off";
    assert k[4] == ' ';
    RegisterMultiWord(cli, k, "Disable echo mode", EchoOff);
    InsertAllStep(es, ns, 7);
    assert ns[..8] == ns;
  }

  /**
   * `Config config; ConfigManager<Config> configManager(0);` on an EEPROM
   * holding `image`, then `configManager.begin(&config)`.
   */
  method LoadConfig(image: seq<byte>, crc: seq<byte> -> u32) returns (manager: ConfigManager, cfg: array<byte>, loaded: bool)
    requires ConfigSize + CrcLen <= |image|
    ensures fresh(manager) && fresh(cfg) && fresh(manager.eeprom) && fresh(manager.eeprom.cells)
    ensures manager.Valid() && manager.structPtr == cfg && cfg.Length == ConfigSize
    ensures manager.eepromStart == 0 && manager.dataLen == ConfigSize && manager.crc == crc
    ensures loaded <==> LoadRecord(crc, image[..ConfigSize + CrcLen], ConfigSize).Some?
    ensures loaded ==> && cfg[..] == image[..ConfigSize]
                       && manager.eeprom.cells[..] == image && manager.eeprom.flash == image
    ensures !loaded ==> && cfg[..] == DefaultConfig()
                        && manager.eeprom.cells[..] == Overwrite(image, 0, RecordImage(crc, DefaultConfig()))
                        && manager.eeprom.flash == manager.eeprom.cells[..]
  {
    var eeprom := new Eeprom(image);
    var defaults := DefaultConfig();
    cfg := new byte[ConfigSize](i requires 0 <= i < ConfigSize => defaults[i]);
    assert cfg[..] == defaults;
    manager := new ConfigManager(0, ConfigSize, eeprom, crc);
    assert manager.Stored() == image[..ConfigSize + CrcLen];
    loaded := manager.Begin(cfg);
  }

  /** The part of `setup` that wires the CLI: both user channels as outputs, the exit callback, the commands. */
  method WireCli(cli: MenuCli<Handler, ExitCallback>)
    requires cli.Valid() && MultiWordKeys(cli.commands) && cli.multiOutput.outputs == []
    modifies cli`commands, cli`onExit, cli.multiOutput
    ensures cli.Valid() && MultiWordKeys(cli.commands)
    ensures cli.multiOutput.outputs == [Serial, SerialBT] && cli.onExit == Some(ReturnToIdle)
    ensures forall k :: Find(cli.commands, k) == if LastWithKey(MenuEntries(), k).Some?
                                                 then LastWithKey(MenuEntries(), k)
                                                 else Find(old(cli.commands), k)
  {
    cli.AttachOutput(Serial);
    cli.AttachOutput(SerialBT);
    cli.SetOnExit(ReturnToIdle);
    ghost var before := cli.commands;
    RegisterMenuCommands(cli);
    FindAfterInsertAll(before, MenuEntries(), cli.commands);
  }

  /** Serial1 traffic: copied to `Serial` and `SerialBT` whatever the state. */
  method OnSerial1Data(buffer: string) returns (w: Writes)
    ensures To(w, Serial) == buffer && To(w, SerialBT) == buffer && To(w, Serial1) == []
  {
    w := Emit(NoWrites, Serial, buffer);
    w := Emit(w, SerialBT, buffer);
  }

  class Bridge {
    /** `serialState`. */
    var state: SerialState
    /** `lastActivity`. */
    var lastActivity: u32
    /** `firstLineLen` of `onSerialData`. */
    var serialCursor: nat
    /** `firstLineLen` of `onSerialBTData`. */
    var btCursor: nat
    /** `menuCLI`. */
    const cli: MenuCli<Handler, ExitCallback>
    /** `config`, as its byte image. */
    const config: array<byte>
    /** `configManager`, at EEPROM address 0. */
    const store: ConfigManager
    /** Whether `setup` went past `configManager.begin`, which it does only when a valid record was loaded. */
    const started: bool

    ghost predicate Valid()
      reads this, cli, cli.multiOutput, store
    {
      && serialCursor < MagicLen && btCursor < MagicLen
      && cli.Valid() && MultiWordKeys(cli.commands) && Serial1 !in cli.multiOutput.outputs
      && config.Length == ConfigSize
      && store.eepromStart == 0 && store.dataLen == ConfigSize
      && store.Valid() && store.structPtr == config
    }

    function Cursor(ch: Channel): nat
      reads this
    {
      if ch == SerialChannel then serialCursor else btCursor
    }

    function Snapshot(ch: Channel): Snap
      reads this, cli
    {
      Snap(state, Cursor(ch), cli.lineBuffer)
    }

    /**
     * The globals after `setup` on an EEPROM holding `image`. Everything
     * after `configManager.begin` happens only when it loaded a valid
     * record: the outputs `Serial` and `SerialBT`, the exit callback and the
     * commands. Otherwise `config` keeps its defaults, which `begin` saved.
     */
    constructor (image: seq<byte>, crc: seq<byte> -> u32)
      requires ConfigSize + CrcLen <= |image|
      ensures Valid()
      ensures state == Idle && lastActivity == 0 && serialCursor == 0 && btCursor == 0
      ensures cli.lineBuffer == [] && cli.IsEchoEnabled()
      ensures started <==> LoadRecord(crc, image[..ConfigSize + CrcLen], ConfigSize).Some?
      ensures started ==> && config[..] == image[..ConfigSize]
                          && store.eeprom.cells[..] == image && store.eeprom.flash == image
                          && cli.multiOutput.outputs == [Serial, SerialBT]
                          && cli.onExit == Some(ReturnToIdle)
                          && forall k :: Find(cli.commands, k) == LastWithKey(MenuEntries(), k)
      ensures !started ==> && config[..] == DefaultConfig()
                           && store.eeprom.cells[..] == Overwrite(image, 0, RecordImage(crc, DefaultConfig()))
                           && store.eeprom.flash == store.eeprom.cells[..]
                           && cli.multiOutput.outputs == [] && cli.commands == [] && cli.onExit == None
    {
      var c := new MenuCli<Handler, ExitCallback>();
      var manager, cfg, loaded := LoadConfig(image, crc);
      if loaded {
        WireCli(c);
        assert forall k :: Find(c.commands, k) == LastWithKey(MenuEntries(), k);
      }
      state := Idle;
      lastActivity := 0;
      serialCursor := 0;
      btCursor := 0;
      cli := c;
      config := cfg;
      store := manager;
      started := loaded;
    }

    /** `setState(s)`. */
    method SetState(s: SerialState)
      modifies this`state
      ensures state == s
    {
      state := s;
    }

    method SetCursor(ch: Channel, k: nat)
      modifies this`serialCursor, this`btCursor
      ensures Cursor(ch) == k
      ensures ch == SerialChannel ==> btCursor == old(btCursor)
      ensures ch == BtChannel ==> serialCursor == old(serialCursor)
    {
      if ch == SerialChannel {
        serialCursor := k;
      } else {
        btCursor := k;
      }
    }

    /** `checkOwnerTimeout()` at time `now`. */
    method CheckOwnerTimeout(now: u32)
      modifies this`state
      ensures state == AfterTimeout(old(state), lastActivity, now)
    {
      var currentState := state;
      var last := lastActivity;
      if (currentState == SerialBTForward || currentState == SerialForward) && Expired(last, now) {
        SetState(Idle);
      }
    }

    /**
     * The Idle part of that body: the bytes are matched against the magic
     * word from the channel's cursor on. A mismatch hands the line to the
     * channel and forwards the whole buffer; the full word enters Menu, and
     * what follows it in the buffer goes to the CLI; a partial match only
     * moves the cursor.
     */
    method OnIdleData(ch: Channel, buffer: string, now: u32) returns (w: Writes)
      requires Valid() && state == Idle && lastActivity == now
      modifies this`state, this`lastActivity, this`serialCursor, this`btCursor, cli`lineBuffer
      ensures Valid()
      ensures lastActivity == now
      ensures (Snapshot(ch), w) == UserData(ch, old(Snapshot(ch)), buffer, cli.echoEnabled, cli.commands, cli.multiOutput.outputs)
      ensures ch == SerialChannel ==> btCursor == old(btCursor)
      ensures ch == BtChannel ==> serialCursor == old(serialCursor)
      decreases 1, |buffer|, 0
    {
      ghost var st0 := Snapshot(ch);
      var k: nat := Cursor(ch);
      var processed: nat := 0;
      while k < MagicLen && processed < |buffer|
        invariant processed <= |buffer| && k < MagicLen
        invariant ScanFrom(k, buffer, processed) == ScanFrom(old(Cursor(ch)), buffer, 0)
        decreases |buffer| - processed
      {
        var c := buffer[processed];
        processed := processed + 1;
        k := k + 1;
        if c != Magic[k - 1] {
          IdleMismatchStep(ch, st0, buffer, cli.echoEnabled, cli.commands, cli.multiOutput.outputs);
          SetState(Owning(ch));
          SetCursor(ch, 0);
          w := OnUserData(ch, buffer, now);
          return;
        }
        if k == MagicLen {
          IdleMatchStep(ch, st0, buffer, cli.echoEnabled, cli.commands, cli.multiOutput.outputs, processed);
          w := EnterMenu(ch, buffer[processed..], now);
          return;
        }
      }
      IdlePendingStep(ch, st0, buffer, cli.echoEnabled, cli.commands, cli.multiOutput.outputs, k);
      SetCursor(ch, k);
      w := NoWrites;
    }

    /**
     * The magic word completed: the notice, `menuCLI.begin()`, Menu mode
     * with the cursor reset, and the rest of the buffer handed to the CLI.
     */
    method EnterMenu(ch: Channel, rest: string, now: u32) returns (w: Writes)
      requires Valid() && lastActivity == now
      modifies this`state, this`lastActivity, this`serialCursor, this`btCursor, cli`lineBuffer
      ensures Valid()
      ensures lastActivity == now
      ensures ch == SerialChannel ==> btCursor == old(btCursor)
      ensures ch == BtChannel ==> serialCursor == old(serialCursor)
      ensures var outs := cli.multiOutput.outputs;
              var entered := Snap(Menu, 0, []);
              if rest == [] then (Snapshot(ch), w) == (entered, EnterWrites(ch, outs))
              else
                var (st2, w2) := UserData(ch, entered, rest, cli.echoEnabled, cli.commands, outs);
                (Snapshot(ch), w) == (st2, Then(EnterWrites(ch, outs), w2))
      decreases 0, |rest|, 2
    {
      w := Emit(NoWrites, PortOf(ch), MenuEntered);
      var evs := cli.Begin();
      w := Deliver(w, evs);
      SetState(Menu);
      SetCursor(ch, 0);
      if rest != [] {
        var more := OnUserData(ch, rest, now);
        w := Then(w, more);
      }
    }

    /**
     * The body shared by `onSerialData` and `onSerialBTData`: the step of
     * `UserData`, with the channel's own cursor; the other channel's cursor
     * is untouched and `lastActivity` becomes `now`.
     */
    method OnUserData(ch: Channel, buffer: string, now: u32) returns (w: Writes)
      requires Valid()
      modifies this`state, this`lastActivity, this`serialCursor, this`btCursor, cli`lineBuffer
      ensures Valid()
      ensures lastActivity == now
      ensures (Snapshot(ch), w) == UserData(ch, old(Snapshot(ch)), buffer, cli.echoEnabled, cli.commands, cli.multiOutput.outputs)
      ensures ch == SerialChannel ==> btCursor == old(btCursor)
      ensures ch == BtChannel ==> serialCursor == old(serialCursor)
      decreases if state == Idle then 1 else 0, |buffer|, 1
    {
      lastActivity := now;
      var currentState := state;
      if currentState == Idle {
        w := OnIdleData(ch, buffer, now);
      } else if currentState == Owning(ch) {
        w := Emit(NoWrites, PeerPort(ch), buffer);
        w := Emit(w, Serial1, buffer);
      } else if currentState == Menu {
        FeedNoCalls(cli.lineBuffer, cli.echoEnabled, cli.commands, cli.multiOutput.outputs, buffer);
        var n, evs := cli.Write(buffer);
        w := Deliver(NoWrites, evs);
      } else {
        w := Emit(NoWrites, PeerPort(ch), buffer);
        w := Emit(w, PortOf(ch), NotOwner(ch));
      }
    }

    /** `onSerialData(buffer, len)` at time `now`. */
    method OnSerialData(buffer: string, now: u32) returns (w: Writes)
      requires Valid()
      modifies this`state, this`lastActivity, this`serialCursor, this`btCursor, cli`lineBuffer
      ensures Valid()
      ensures lastActivity == now && btCursor == old(btCursor)
      ensures (Snapshot(SerialChannel), w) ==
              UserData(SerialChannel, old(Snapshot(SerialChannel)), buffer, cli.echoEnabled, cli.commands, cli.multiOutput.outputs)
    {
      w := OnUserData(SerialChannel, buffer, now);
    }

    /** `onSerialBTData(buffer, len)` at time `now`. */
    method OnSerialBTData(buffer: string, now: u32) returns (w: Writes)
      requires Valid()
      modifies this`state, this`lastActivity, this`serialCursor, this`btCursor, cli`lineBuffer
      ensures Valid()
      ensures lastActivity == now && serialCursor == old(serialCursor)
      ensures (Snapshot(BtChannel), w) ==
              UserData(BtChannel, old(Snapshot(BtChannel)), buffer, cli.echoEnabled, cli.commands, cli.multiOutput.outputs)
    {
      w := OnUserData(BtChannel, buffer, now);
    }

    // -------------------------------------------------------------------------
    // The command handlers of registerMenuCommands. What a handler prints to
    // its `out` stream is its result `out`.
    // -------------------------------------------------------------------------

    /** `get baud serial1`: the stored Serial1 rate. */
    method ShowSerial1Baud() returns (out: string)
      requires Valid()
      ensures out == "Serial1 baudrate: " + Decimal(FieldU32(config[..], Serial1BaudAt) as nat) + "\r\n"
    {
      var baud := BytesToU32(config[Serial1BaudAt..Serial1BaudAt + 4]);
      out := "Serial1 baudrate: " + Decimal(baud as nat) + "\r\n";
    }

    /** `get baud serial`: the rate the USB serial port runs at, which is a hardware query. */
    method ShowSerialBaud(baudRate: u32) returns (out: string)
      ensures out == "Serial baudrate: " + Decimal(baudRate as nat) + "\r\n"
    {
      out := "Serial baudrate: " + Decimal(baudRate as nat) + "\r\n";
    }

    /** `get bt_name`: the stored name, up to its NUL. */
    method ShowBtName() returns (out: string)
      requires Valid()
      ensures out == "Bluetooth device name: " + CString(config[..NameSize]) + "\r\n"
    {
      out := "Bluetooth device name: " + CString(config[..NameSize]) + "\r\n";
    }

    /** The assignment of `v` to the `uint32_t` field of `config` at offset `at`. */
    method StoreU32(at: nat, v: u32)
      requires at + 4 <= config.Length
      modifies config
      ensures config[..] == WithU32(old(config[..]), at, v)
    {
      var bytes := U32ToBytes(v);
      ghost var before := config[..];
      forall i | 0 <= i < 4 {
        config[at + i] := bytes[i];
      }
      var r := WithU32(before, at, v);
      forall i | 0 <= i < config.Length ensures config[i] == r[i] {
        if at <= i < at + 4 {
          assert r[i] == r[at..at + 4][i - at];
        }
      }
      assert config[..] == r;
    }

    /** `configManager.save()`: the registered record, which is `config`, is written and committed. */
    method SaveConfig()
      requires Valid()
      modifies store.eeprom.cells, store.eeprom`flash
      ensures Valid()
      ensures store.eeprom.cells[..] == Overwrite(old(store.eeprom.cells[..]), 0, RecordImage(store.crc, config[..]))
      ensures store.eeprom.flash == store.eeprom.cells[..]
    {
      store.Save(null);
    }

    /**
     * The body of `set baud serial1` (at = 36) and `set baud serial`
     * (at = 32): a rate <= 0 is refused and nothing changes; otherwise the
     * field takes the rate and the whole config is saved.
     */
    method ChangeBaud(at: nat, usage: string, portName: string, args: string) returns (out: string)
      requires Valid() && (at == SerialBaudAt || at == Serial1BaudAt)
      modifies config, store.eeprom.cells, store.eeprom`flash
      ensures Valid()
      ensures ParseBaud(args).None? ==>
                && out == "Invalid baudrate. Usage: " + usage + "\r\n"
                && config[..] == old(config[..])
                && store.eeprom.cells[..] == old(store.eeprom.cells[..]) && store.eeprom.flash == old(store.eeprom.flash)
      ensures ParseBaud(args).Some? ==>
                && config[..] == WithU32(old(config[..]), at, ParseBaud(args).value)
                && store.eeprom.cells[..] == Overwrite(old(store.eeprom.cells[..]), 0, RecordImage(store.crc, config[..]))
                && store.eeprom.flash == store.eeprom.cells[..]
                && out == portName + " baudrate set to: " + Decimal(ToInt(args) as nat) + "\r\n"
    {
      var baud := ToInt(args);
      if baud <= 0 {
        out := "Invalid baudrate. Usage: " + usage + "\r\n";
        return;
      }
      var v := baud as u32;
      assert ParseBaud(args) == Some(v);
      StoreU32(at, v);
      out := portName + " baudrate set to: " + Decimal(baud as nat) + "\r\n";
      SaveConfig();
    }

    /** `set baud serial1 <baudrate>`. */
    method ChangeSerial1Baud(args: string) returns (out: string)
      requires Valid()
      modifies config, store.eeprom.cells, store.eeprom`flash
      ensures Valid()
      ensures ParseBaud(args).None? ==> config[..] == old(config[..]) && store.eeprom.cells[..] == old(store.eeprom.cells[..])
      ensures ParseBaud(args).Some? ==>
                && config[..] == WithU32(old(config[..]), Serial1BaudAt, ParseBaud(args).value)
                && store.eeprom.cells[..] == Overwrite(old(store.eeprom.cells[..]), 0, RecordImage(store.crc, config[..]))
    {
      out := ChangeBaud(Serial1BaudAt, "set baud serial1 <baudrate>", "Serial1", args);
    }

    /** `set baud serial <baudrate>`. */
    method ChangeSerialBaud(args: string) returns (out: string)
      requires Valid()
      modifies config, store.eeprom.cells, store.eeprom`flash
      ensures Valid()
      ensures ParseBaud(args).None? ==> config[..] == old(config[..]) && store.eeprom.cells[..] == old(store.eeprom.cells[..])
      ensures ParseBaud(args).Some? ==>
                && config[..] == WithU32(old(config[..]), SerialBaudAt, ParseBaud(args).value)
                && store.eeprom.cells[..] == Overwrite(old(store.eeprom.cells[..]), 0, RecordImage(store.crc, config[..]))
    {
      out := ChangeBaud(SerialBaudAt, "set baud serial <baudrate>", "Serial", args);
    }

    /** `name.toCharArray(config.bt_name, sizeof(config.bt_name))`: only the name field changes. */
    method StoreName(name: string)
      requires config.Length == ConfigSize
      modifies config
      ensures config[..] == ToCharArray(old(config[..NameSize]), name) + old(config[NameSize..])
    {
      ghost var before := config[..];
      var field := ToCharArray(config[..NameSize], name);
      forall i | 0 <= i < NameSize {
        config[i] := field[i];
      }
      assert config[..] == field + before[NameSize..] by {
        forall i | 0 <= i < ConfigSize ensures config[i] == (field + before[NameSize..])[i] {
        }
      }
    }

    /**
     * `set bt_name <name>`: a trimmed name of 0 or at least 32 characters is
     * refused and nothing changes; otherwise it is copied into `bt_name`,
     * the config is saved, and the device restarts (not modelled). A name of
     * plain bytes is printed back exactly.
     */
    method ChangeBtName(args: string) returns (out: string)
      requires Valid()
      modifies config, store.eeprom.cells, store.eeprom`flash
      ensures Valid()
      ensures ParseName(args).None? ==>
                && out == "Invalid name. Usage: set bt_name <name>\r\n"
                && config[..] == old(config[..])
                && store.eeprom.cells[..] == old(store.eeprom.cells[..]) && store.eeprom.flash == old(store.eeprom.flash)
      ensures ParseName(args).Some? ==>
                && config[..] == ToCharArray(old(config[..NameSize]), Trim(args)) + old(config[NameSize..])
                && store.eeprom.cells[..] == Overwrite(old(store.eeprom.cells[..]), 0, RecordImage(store.crc, config[..]))
                && store.eeprom.flash == store.eeprom.cells[..]
                && out == "Bluetooth device name set to: " + CString(config[..NameSize]) + "\r\n"
                          + "Restarting ESP32 to apply new name...\r\n"
      ensures ParseName(args).Some? && PlainBytes(Trim(args)) ==>
                out == "Bluetooth device name set to: " + Trim(args) + "\r\n" + "Restarting ESP32 to apply new name...\r\n"
    {
      var name := Trim(args);
      if |name| == 0 || |name| >= NameSize {
        out := "Invalid name. Usage: set bt_name <name>\r\n";
        return;
      }
      ghost var before := config[..];
      StoreName(name);
      assert config[..NameSize] == ToCharArray(before[..NameSize], name);
      if PlainBytes(name) {
        NameRoundTrip(before[..NameSize], name);
      }
      out := "Bluetooth device name set to: " + CString(config[..NameSize]) + "\r\n";
      SaveConfig();
      out := out + "Restarting ESP32 to apply new name...\r\n";
    }

    /** `echo on`. */
    method EnableEcho() returns (out: string)
      requires Valid()
      modifies cli`echoEnabled
      ensures Valid() && cli.IsEchoEnabled()
      ensures out == "Echo mode enabled.\r\n"
    {
      cli.SetEcho(true);
      out := "Echo mode enabled.\r\n";
    }

    /** `echo off`. */
    method DisableEcho() returns (out: string)
      requires Valid()
      modifies cli`echoEnabled
      ensures Valid() && !cli.IsEchoEnabled()
      ensures out == "Echo mode disabled.\r\n"
    {
      cli.SetEcho(false);
      out := "Echo mode disabled.\r\n";
    }

    /** Runs the handler `registerMenuCommands` installed under a key; `serialBaud` is what `Serial.baudRate()` answers. */
    method RunHandler(h: Handler, args: string, serialBaud: u32) returns (out: string)
      requires Valid()
      modifies config, store.eeprom.cells, store.eeprom`flash, cli`echoEnabled
      ensures Valid()
    {
      match h {
        case GetBaudSerial1 => out := ShowSerial1Baud();
        case SetBaudSerial1 => out := ChangeSerial1Baud(args);
        case GetBaudSerial => out := ShowSerialBaud(serialBaud);
        case SetBaudSerial => out := ChangeSerialBaud(args);
        case GetBtName => out := ShowBtName();
        case SetBtName => out := ChangeBtName(args);
        case EchoOn => out := EnableEcho();
        case EchoOff => out := DisableEcho();
      }
    }
  }
}
