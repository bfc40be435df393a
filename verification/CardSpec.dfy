/**
 What the NTAG424 card does with one command APDU, as a function of its state.
 `Panicked` stands for every assertion, `expect` and out-of-bounds index that
 ends the card process.
 */
module CardSpec {
  import opened Bytes
  import Cbc
  import NdefFile

  const UID: seq<byte> := [0x04, 0x10, 0x65, 0xFA, 0x96, 0x73, 0x80]
  const TI: Ti := [0x08, 0x5B, 0xC9, 0x41]
  const RND_B: Block := [0xB9, 0xE2, 0xFC, 0x78, 0x9B, 0x64, 0xBF, 0x23, 0x7C, 0xCC, 0xAA, 0x20, 0xEC, 0x7E, 0x6E, 0x48]
  const DF_SELECT: seq<byte> := [0x00, 0xA4, 0x04, 0x00, 0x07, 0xD2, 0x76, 0x00, 0x00, 0x85, 0x01, 0x01, 0x00]
  const EF_SELECT: seq<byte> := [0x00, 0xA4, 0x00, 0x0C, 0x02, 0xE1, 0x04]
  const VERSION_PART1: seq<byte> := [0x04, 0x04, 0x08, 0x30, 0x00, 0x11, 0x05]
  const VERSION_PART2: seq<byte> := [0x04, 0x04, 0x02, 0x01, 0x02, 0x11, 0x05]
  const VERSION_PART3: seq<byte> := UID + [0xCF, 0x5D, 0x90, 0x45, 0x10, 0x46, 0x21]

  datatype Pending = Pending(key: Block, rndB: Block)

  type Ti = t: seq<byte> | |t| == 4 witness Zeros(4)

  type u16 = n: nat | n < 0x1_0000

  datatype Session = Session(encKey: Block, macKey: Block, ti: Ti, counter: u16)

  datatype State = State(
    keys: seq<Block>,
    versions: seq<byte>,
    ndef: seq<byte>,
    settings: seq<byte>,
    appSelected: bool,
    efSelected: bool,
    pending: Option<Pending>,
    session: Option<Session>,
    versionStep: nat)
  {
    predicate Valid() {
      |keys| == 5 && |versions| == 5
    }
  }

  datatype Outcome = Panicked | Answered(next: State, data: seq<byte>, sw1: byte, sw2: byte)

  function Ok(next: State, data: seq<byte>): (o: Outcome) {
    Answered(next, data, 0x91, 0x00)
  }

  function IsoOk(next: State, data: seq<byte>): (o: Outcome) {
    Answered(next, data, 0x90, 0x00)
  }

  // Session keys, counters and MACs.

  function RotateLeft(b: Block): (r: Block) {
    b[1..] + [b[0]]
  }

  function SessionVector(tag: seq<byte>, a: Block, b: Block): (sv: seq<byte>)
    requires |tag| == 2
    ensures |sv| == 32
  {
    tag + [0x00, 0x01, 0x00, 0x80] + a[0..2]
    + seq(6, i requires 0 <= i < 6 => XorByte(a[2 + i], b[i]))
    + b[6..16] + a[8..16]
  }

  function NewSession(x: Suite, key: Block, a: Block, b: Block): (s: Session) {
    Session(x.cmac(key, SessionVector([0xA5, 0x5A], a, b)), x.cmac(key, SessionVector([0x5A, 0xA5], a, b)), TI, 0)
  }

  function Bumped(n: u16): (r: u16) {
    (n + 1) % 0x1_0000
  }

  function Advance(s: Session): (r: Session) {
    s.(counter := Bumped(s.counter))
  }

  function TruncateMac(full: Block): (m: seq<byte>)
    ensures |m| == 8
  {
    seq(8, i requires 0 <= i < 8 => full[2 * i + 1])
  }

  /** What a MAC is computed over: a code byte, the counter, the transaction identifier, and the rest. */
  function MacInput(code: byte, counter: u16, ti: Ti, rest: seq<byte>): (input: seq<byte>) {
    [code] + Le16(counter) + ti + rest
  }

  function CommandMac(x: Suite, s: Session, cmd: byte, header: seq<byte>, data: seq<byte>): (m: seq<byte>)
    ensures |m| == 8
  {
    TruncateMac(x.cmac(s.macKey, MacInput(cmd, s.counter, s.ti, header + data)))
  }

  function ResponseMac(x: Suite, s: Session, data: seq<byte>): (m: seq<byte>)
    ensures |m| == 8
  {
    TruncateMac(x.cmac(s.macKey, MacInput(0x00, Bumped(s.counter), s.ti, data)))
  }

  function IvInput(counter: u16, ti: Ti): (b: Block) {
    [0xA5, 0x5A] + ti + Le16(counter) + Zeros(8)
  }

  function CommandIv(x: Suite, s: Session): (iv: Block)
  {
    x.enc(s.encKey, IvInput(s.counter, s.ti))
  }

  /** The plaintext of a command body, or `None` for the panic on a body that is not whole blocks. */
  function DecryptCommand(x: Suite, s: Session, body: seq<byte>): (p: Option<seq<byte>>)
    ensures p.Some? ==> |p.value| == |body|
  {
    if body != [] && Cbc.WholeBlocks(body)
    then Some(Cbc.Decrypt(x, s.encKey, CommandIv(x, s), body))
    else None
  }

  /** The answer to a MACed command: the data, its MAC, and the counter moved on by one. */
  function OkWithMac(x: Suite, s: State, data: seq<byte>): (o: Outcome)
    requires s.session.Some?
  {
    Ok(s.(session := Some(Advance(s.session.value))), data + ResponseMac(x, s.session.value, data))
  }

  /** Native reads and writes move the counter of an open session without a MAC. */
  function Counted(s: State): (r: State) {
    if s.session.Some? then s.(session := Some(Advance(s.session.value))) else s
  }

  // The commands.

  function AuthPart1(x: Suite, s: State, a: seq<byte>): (o: Outcome)
    requires s.Valid()
  {
    if !s.appSelected || (|a| != 8 && |a| != 11) || a[5] >= 5 then Panicked
    else
      var key := s.keys[a[5]];
      Answered(s.(pending := Some(Pending(key, RND_B))), Cbc.Encrypt(x, key, ZERO_BLOCK, RND_B), 0x91, 0xAF)
  }

  function AuthPart2(x: Suite, s: State, a: seq<byte>): (o: Outcome)
    requires s.pending.Some?
  {
    if |a| != 38 || a[..5] != [0x90, 0xAF, 0x00, 0x00, 0x20] || a[37] != 0x00 then Panicked
    else
      var p := s.pending.value;
      var plain := Cbc.Decrypt(x, p.key, ZERO_BLOCK, a[5..37]);
      if plain[16..] != RotateLeft(p.rndB) then Answered(s.(pending := None), [], 0x91, 0xAE)
      else
        var rndA: Block := plain[..16];
        var reply := TI + RotateLeft(rndA) + Zeros(12);
        Ok(s.(pending := None, session := Some(NewSession(x, p.key, rndA, p.rndB))),
           Cbc.Encrypt(x, p.key, ZERO_BLOCK, reply))
  }

  function GetVersionContinue(s: State): (o: Outcome) {
    if s.versionStep == 1 then Answered(s.(versionStep := 2), VERSION_PART2, 0x91, 0xAF)
    else if s.versionStep == 2 then Ok(s.(versionStep := 0), VERSION_PART3)
    else Panicked
  }

  function GetFileSettingsPlain(s: State, a: seq<byte>): (o: Outcome)
    requires |a| == 7
  {
    if !s.appSelected || a[..5] != [0x90, 0xF5, 0x00, 0x00, 0x01] || a[5] != 0x02 || a[6] != 0x00 then Panicked
    else Ok(s, s.settings)
  }

  function GetFileSettingsMac(x: Suite, s: State, a: seq<byte>): (o: Outcome) {
    if !s.appSelected || |a| != 15 || a[..5] != [0x90, 0xF5, 0x00, 0x00, 0x09] || a[5] != 0x02 || a[14] != 0x00
       || s.session.None? || a[6..14] != CommandMac(x, s.session.value, 0xF5, [a[5]], [])
    then Panicked
    else OkWithMac(x, s, s.settings)
  }

  /** File type and size stay; the patch supplies the communication mode, the rights and the rest. */
  function PatchSettings(settings: seq<byte>, patch: seq<byte>): (r: Option<seq<byte>>) {
    if |settings| < 7 || |patch| < 3 then None
    else Some([settings[0]] + patch[..3] + settings[4..7] + patch[3..])
  }

  function ChangeFileSettings(x: Suite, s: State, a: seq<byte>): (o: Outcome)
  {
    if !s.appSelected || |a| < 31 || a[0] != 0x90 || a[1] != 0x5F || a[5] != 0x02 || a[|a| - 1] != 0x00
       || s.session.None?
    then Panicked
    else
      var body, mac := a[6..|a| - 9], a[|a| - 9..|a| - 1];
      var plain := DecryptCommand(x, s.session.value, body);
      if mac != CommandMac(x, s.session.value, 0x5F, [a[5]], body) || plain.None? then Panicked
      else
        var patchLen := Cbc.Stripped(plain.value);
        if patchLen.None? then Panicked
        else
          var patched := PatchSettings(s.settings, plain.value[..patchLen.value]);
          if patched.None? then Panicked
          else OkWithMac(x, s.(settings := patched.value), [])
  }

  /** Slot 0 takes the plaintext as the key and closes the session; another slot takes it as a mask. */
  function InstallKey(x: Suite, s: State, slot: nat, plain: seq<byte>): (o: Outcome)
    requires s.Valid() && s.session.Some? && slot < 5 && |plain| == 32
  {
    if slot == 0 then
      Ok(s.(keys := s.keys[0 := plain[..16]], versions := s.versions[0 := plain[16]], session := None), [])
    else
      OkWithMac(x, s.(keys := s.keys[slot := Xor(plain[..16], s.keys[slot])],
                      versions := s.versions[slot := plain[16]]), [])
  }

  function ChangeKey(x: Suite, s: State, a: seq<byte>): (o: Outcome)
    requires s.Valid()
  {
    if !s.appSelected || |a| < 46 || a[0] != 0x90 || a[1] != 0xC4 || a[4] != 0x29 || a[|a| - 1] != 0x00
       || a[5] >= 5 || s.session.None?
    then Panicked
    else
      var plain := DecryptCommand(x, s.session.value, a[6..38]);
      if a[38..46] != CommandMac(x, s.session.value, 0xC4, [a[5]], a[6..38]) || plain.None? then Panicked
      else InstallKey(x, s, a[5], plain.value)
  }

  function GetKeyVersion(x: Suite, s: State, a: seq<byte>): (o: Outcome)
    requires s.Valid()
  {
    if !s.appSelected || |a| != 15 || a[..5] != [0x90, 0x64, 0x00, 0x00, 0x09] || a[14] != 0x00
       || s.session.None? || a[6..14] != CommandMac(x, s.session.value, 0x64, [a[5]], []) || a[5] >= 5
    then Panicked
    else OkWithMac(x, s, [s.versions[a[5]]])
  }

  function ReadData(s: State, a: seq<byte>): (o: Outcome) {
    if !s.appSelected || |a| < 12 || a[..5] != [0x90, 0xAD, 0x00, 0x00, 0x07] || a[|a| - 1] != 0x00 || a[5] != 0x02
    then Panicked
    else
      var data := NdefFile.NativeRead(s.ndef, FromLe24(a[6], a[7], a[8]), FromLe24(a[9], a[10], a[11]));
      if data.None? then Panicked else Ok(Counted(s), data.value)
  }

  function WriteData(s: State, a: seq<byte>): (o: Outcome) {
    if !s.appSelected || |a| < 12 || a[0] != 0x90 || a[1] != 0x8D || a[5] != 0x02 || a[|a| - 1] != 0x00
       || |a| < 12 + FromLe24(a[9], a[10], a[11])
    then Panicked
    else
      var data := a[12..12 + FromLe24(a[9], a[10], a[11])];
      Ok(Counted(s.(ndef := NdefFile.Write(s.ndef, FromLe24(a[6], a[7], a[8]), data))), [])
  }

  function IsoReadBinary(s: State, a: seq<byte>): (o: Outcome) {
    if !s.appSelected || !s.efSelected || |a| != 5 then Panicked
    else if a[2] >= 0x80 then Answered(s, [], 0x6A, 0x82)
    else IsoOk(s, NdefFile.IsoRead(s.ndef, FromBe16(a[2], a[3]), if a[4] == 0 then 256 else a[4]))
  }

  function IsoUpdateBinary(s: State, a: seq<byte>): (o: Outcome) {
    if !s.appSelected || !s.efSelected || |a| < 5 then Panicked
    else IsoOk(s.(ndef := a[5..]), [])
  }

  /** SELECT forms other than the two the workflows use. */
  function IsoSelect(s: State, a: seq<byte>): (o: Outcome)
    requires |a| >= 4
  {
    if |a| == 4 && a[2] == 0x00 && a[3] == 0x00 then IsoOk(s, [])
    else if |a| == 4 || |a| - 5 != a[4] then Answered(s, [], 0x67, 0x00)
    else if |a| - 5 >= 2 && a[3] % 16 == 0x0C && FromBe16(a[5], a[6]) in {0x3F00, 0xE103, 0xE104} then IsoOk(s, [])
    else Answered(s, [], 0x6A, 0x82)
  }

  predicate Header(a: seq<byte>, cla: byte, ins: byte) {
    |a| >= 2 && a[0] == cla && a[1] == ins
  }

  function Native(x: Suite, s: State, a: seq<byte>): (o: Outcome)
    requires s.Valid() && |a| >= 1
    ensures o.Answered? ==> o.next.Valid()
  {
    if Header(a, 0x90, 0x71) then AuthPart1(x, s, a)
    else if Header(a, 0x90, 0xAF) then (if s.pending.Some? then AuthPart2(x, s, a) else GetVersionContinue(s))
    else if Header(a, 0x90, 0x60) then Answered(s.(versionStep := 1), VERSION_PART1, 0x91, 0xAF)
    else if Header(a, 0x90, 0xF5) && |a| >= 6 then
      (if |a| == 7 then GetFileSettingsPlain(s, a) else GetFileSettingsMac(x, s, a))
    else if Header(a, 0x90, 0x5F) then ChangeFileSettings(x, s, a)
    else if Header(a, 0x90, 0xC4) then ChangeKey(x, s, a)
    else if Header(a, 0x90, 0x64) then GetKeyVersion(x, s, a)
    else if Header(a, 0x90, 0xAD) then ReadData(s, a)
    else if Header(a, 0x90, 0x8D) then WriteData(s, a)
    else Panicked
  }

  function Iso(s: State, a: seq<byte>): (o: Outcome)
    ensures s.Valid() && o.Answered? ==> o.next.Valid()
  {
    if a == DF_SELECT then IsoOk(s.(appSelected := true, efSelected := false), [])
    else if a == EF_SELECT then (if s.appSelected then IsoOk(s.(efSelected := true), []) else Panicked)
    else if Header(a, 0x00, 0xD6) then IsoUpdateBinary(s, a)
    else if Header(a, 0x00, 0xB0) then IsoReadBinary(s, a)
    else if |a| < 4 then Answered(s, [], 0x67, 0x00)
    else if a[1] == 0xA4 then IsoSelect(s, a)
    else Answered(s, [], 0x6D, 0x00)
  }

  function Step(x: Suite, s: State, a: seq<byte>): (o: Outcome)
    requires s.Valid()
    ensures o.Answered? ==> o.next.Valid()
  {
    if a == [] then Panicked
    else if a[0] == 0x90 then Native(x, s, a)
    else if a[0] == 0x00 then Iso(s, a)
    else if Header(a, 0xFF, 0xCA) && |a| >= 4 then IsoOk(s, UID)
    else if Header(a, 0xFF, 0xA4) then Answered(s, [], 0x63, 0x00)
    else Answered(s, [], 0x67, 0x00)
  }
}
