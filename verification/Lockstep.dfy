/**
 An honest client driving the card. The card under secure messaging is shown to
 simulate a plain device that has no cryptography and only counts commands: in
 every run the client's handshake completes, every MAC and IV it computes from
 its own count is the one the card expects, and the card's contents and answers
 are those of the plain device.
 */
module Lockstep {
  import opened Bytes
  import opened CardSpec
  import Cbc
  import NdefFile

  datatype Command =
    | SelectApp
    | SelectFile
    | Authenticate(slot: nat, key: Block, rndA: Block, caps: seq<byte>)
    | RejectedAuthentication(slot: nat, payload: seq<byte>)
    | GetVersion
    | ReadSettingsPlain
    | ReadSettings
    | ChangeSettings(patch: seq<byte>)
    | ChangeKey(slot: nat, newKey: Block, oldKey: Block, version: byte, crc: seq<byte>)
    | ReadKeyVersion(slot: nat)
    | Read(offset: nat, length: nat)
    | Write(offset: nat, data: seq<byte>)
    | IsoRead(offset: nat, want: nat)
    | IsoUpdate(data: seq<byte>)

  // The plain device.

  datatype Plain = Plain(
    keys: seq<Block>,
    versions: seq<byte>,
    ndef: seq<byte>,
    settings: seq<byte>,
    appSelected: bool,
    efSelected: bool,
    counted: Option<nat>)  // commands counted since authentication, while authenticated

  function Tick(p: Plain): (r: Plain) {
    if p.counted.Some? then p.(counted := Some(p.counted.value + 1)) else p
  }

  /** What the client sends for a key change hides the key under the old key, except in slot 0. */
  function KeyAfterChange(stored: Block, slot: nat, newKey: Block, oldKey: Block): (k: Block)
  {
    if slot == 0 then newKey else Xor(Xor(newKey, oldKey), stored)
  }

  /** The command is one the protocol allows in this state. */
  predicate Allowed(x: Suite, p: Plain, c: Command)
    requires |p.keys| == 5
  {
    match c
    case SelectApp => true
    case GetVersion => true
    case SelectFile => p.appSelected
    case Authenticate(slot, key, rndA, caps) =>
      p.appSelected && slot < 5 && key == p.keys[slot] && |caps| in {0, 3}
    case RejectedAuthentication(slot, payload) =>
      && p.appSelected && slot < 5 && |payload| == 32
      && Cbc.Decrypt(x, p.keys[slot], ZERO_BLOCK, payload)[16..] != RotateLeft(RND_B)
    case ReadSettingsPlain => p.appSelected
    case ReadSettings => p.appSelected && p.counted.Some?
    case ChangeSettings(patch) =>
      p.appSelected && p.counted.Some? && |p.settings| >= 7 && 3 <= |patch| <= 239
    case ChangeKey(slot, newKey, oldKey, version, crc) =>
      p.appSelected && p.counted.Some? && slot < 5 && |crc| == 4
    case ReadKeyVersion(slot) => p.appSelected && p.counted.Some? && slot < 5
    case Read(offset, length) => p.appSelected && offset <= |p.ndef| && offset < 0x100_0000 && length < 0x100_0000
    case Write(offset, data) => p.appSelected && offset < 0x100_0000 && |data| <= 248
    case IsoRead(offset, want) => p.appSelected && p.efSelected && offset < 0x8000 && 1 <= want <= 256
    case IsoUpdate(data) => p.appSelected && p.efSelected && |data| <= 255
  }

  /** The plain device's next state. */
  function PlainNext(x: Suite, p: Plain, c: Command): (r: Plain)
    requires |p.keys| == 5 && |p.versions| == 5 && Allowed(x, p, c)
    ensures |r.keys| == 5 && |r.versions| == 5
  {
    match c
    case SelectApp => p.(appSelected := true, efSelected := false)
    case SelectFile => p.(efSelected := true)
    case Authenticate(_, _, _, _) => p.(counted := Some(0))
    case ChangeSettings(patch) => Tick(p.(settings := PatchSettings(p.settings, patch).value))
    case ChangeKey(slot, newKey, oldKey, version, crc) =>
      var q := p.(keys := p.keys[slot := KeyAfterChange(p.keys[slot], slot, newKey, oldKey)],
                  versions := p.versions[slot := version]);
      if slot == 0 then q.(counted := None) else Tick(q)
    case Write(offset, data) => Tick(p.(ndef := NdefFile.Write(p.ndef, offset, data)))
    case IsoUpdate(data) => p.(ndef := data)
    case ReadSettings => Tick(p)
    case ReadKeyVersion(_) => Tick(p)
    case Read(_, _) => Tick(p)
    case _ => p
  }

  /** The plain device's answer. */
  function PlainAnswer(x: Suite, p: Plain, c: Command): (r: seq<byte>)
    requires |p.keys| == 5 && |p.versions| == 5 && Allowed(x, p, c)
  {
    match c
    case GetVersion => VERSION_PART1 + VERSION_PART2 + VERSION_PART3
    case ReadSettingsPlain => p.settings
    case ReadSettings => p.settings
    case ReadKeyVersion(slot) => [p.versions[slot]]
    case Read(offset, length) => NdefFile.NativeRead(p.ndef, offset, length).value
    case IsoRead(offset, want) => NdefFile.IsoRead(p.ndef, offset, want)
    case _ => []
  }

  // The client.

  datatype Exchange = Broken | Exchanged(card: State, client: Option<Session>, answer: seq<byte>)

  /** One APDU that must be answered with the given status. */
  function Plainly(x: Suite, card: State, client: Option<Session>, apdu: seq<byte>, sw1: byte, sw2: byte): (e: Exchange)
    requires card.Valid()
  {
    var o := Step(x, card, apdu);
    if o.Answered? && o.sw1 == sw1 && o.sw2 == sw2 then Exchanged(o.next, client, o.data) else Broken
  }

  /** One APDU whose answer must carry the MAC of the client's own session; the client then counts it. */
  function Securely(x: Suite, card: State, client: Session, apdu: seq<byte>): (e: Exchange)
    requires card.Valid()
  {
    var o := Step(x, card, apdu);
    if !o.Answered? || o.sw1 != 0x91 || o.sw2 != 0x00 || |o.data| < 8 then Broken
    else
      var data, mac := o.data[..|o.data| - 8], o.data[|o.data| - 8..];
      if mac != ResponseMac(x, client, data) then Broken
      else Exchanged(o.next, Some(Advance(client)), data)
  }

  function Count(client: Option<Session>): (r: Option<Session>) {
    if client.Some? then Some(Advance(client.value)) else None
  }

  function MacApdu(x: Suite, s: Session, ins: byte, arg: byte): (a: seq<byte>) {
    [0x90, ins, 0x00, 0x00, 0x09, arg] + CommandMac(x, s, ins, [arg], []) + [0x00]
  }

  function CipherApdu(x: Suite, s: Session, ins: byte, arg: byte, plain: seq<byte>): (a: seq<byte>)
    requires plain != [] && Cbc.WholeBlocks(plain) && |plain| <= 240
  {
    var body := Cbc.Encrypt(x, s.encKey, CommandIv(x, s), plain);
    [0x90, ins, 0x00, 0x00, 9 + |plain|, arg] + body + CommandMac(x, s, ins, [arg], body) + [0x00]
  }

  function KeyPlaintext(slot: nat, newKey: Block, oldKey: Block, version: byte, crc: seq<byte>): (p: seq<byte>)
    requires |crc| == 4
    ensures |p| == 32
  {
    if slot == 0 then newKey + [version] + [0x80] + Zeros(14)
    else Xor(newKey, oldKey) + [version] + crc + [0x80] + Zeros(10)
  }

  function AuthApdu(slot: byte, caps: seq<byte>): (a: seq<byte>)
    requires |caps| <= 250
  {
    [0x90, 0x71, 0x00, 0x00, 2 + |caps|, slot, |caps|] + caps + [0x00]
  }

  function AuthReplyApdu(payload: seq<byte>): (a: seq<byte>) {
    [0x90, 0xAF, 0x00, 0x00, 0x20] + payload + [0x00]
  }

  /** The client's answer to the challenge it received, under whatever key it holds. */
  function ClientAnswer(x: Suite, key: Block, rndA: Block, challenge: Block): (payload: seq<byte>)
    ensures |payload| == 32
  {
    Cbc.Encrypt(x, key, ZERO_BLOCK, rndA + RotateLeft(Cbc.Decrypt(x, key, ZERO_BLOCK, challenge)))
  }

  /** The session the client opens, once the card has proved that it saw `rndA`. */
  function ClientSession(x: Suite, key: Block, rndA: Block, challenge: Block, proof: seq<byte>): (s: Option<Session>)
    requires |proof| == 32
  {
    var plain := Cbc.Decrypt(x, key, ZERO_BLOCK, proof);
    if plain[4..20] != RotateLeft(rndA) then None
    else Some(NewSession(x, key, rndA, Cbc.Decrypt(x, key, ZERO_BLOCK, challenge)).(ti := plain[..4]))
  }

  /** The client judges the card's proof and opens its session. */
  function Conclude(x: Suite, key: Block, rndA: Block, challenge: Block, e: Exchange): (r: Exchange) {
    if e.Broken? || |e.answer| != 32 then Broken
    else
      var s := ClientSession(x, key, rndA, challenge, e.answer);
      if s.None? then Broken else Exchanged(e.card, s, [])
  }

  /** The client answers the challenge of a first part. */
  function AnswerChallenge(x: Suite, client: Option<Session>, key: Block, rndA: Block, e: Exchange): (r: Exchange) {
    if e.Broken? || |e.answer| != 16 || !e.card.Valid() then Broken
    else
      var reply := AuthReplyApdu(ClientAnswer(x, key, rndA, e.answer));
      Conclude(x, key, rndA, e.answer, Plainly(x, e.card, client, reply, 0x91, 0x00))
  }

  /** AuthenticateEV2First from the client's side. */
  function Handshake(x: Suite, card: State, client: Option<Session>, slot: byte, key: Block, rndA: Block,
                     caps: seq<byte>): (e: Exchange)
    requires card.Valid() && |caps| <= 250
  {
    AnswerChallenge(x, client, key, rndA, Plainly(x, card, client, AuthApdu(slot, caps), 0x91, 0xAF))
  }

  function RejectedHandshake(x: Suite, card: State, client: Option<Session>, slot: byte,
                             payload: seq<byte>): (e: Exchange)
    requires card.Valid()
  {
    var e1 := Plainly(x, card, client, AuthApdu(slot, []), 0x91, 0xAF);
    if e1.Broken? || !e1.card.Valid() then Broken
    else Plainly(x, e1.card, client, AuthReplyApdu(payload), 0x91, 0xAE)
  }

  function VersionExchange(x: Suite, card: State, client: Option<Session>): (e: Exchange)
    requires card.Valid()
  {
    var e1 := Plainly(x, card, client, [0x90, 0x60, 0x00, 0x00, 0x00], 0x91, 0xAF);
    if e1.Broken? || !e1.card.Valid() then Broken
    else
      var e2 := Plainly(x, e1.card, client, [0x90, 0xAF, 0x00, 0x00, 0x00], 0x91, 0xAF);
      if e2.Broken? || !e2.card.Valid() then Broken
      else
        var e3 := Plainly(x, e2.card, client, [0x90, 0xAF, 0x00, 0x00, 0x00], 0x91, 0x00);
        if e3.Broken? then Broken else e3.(answer := e1.answer + e2.answer + e3.answer)
  }

  /** The client sends a command; `Broken` means the card panicked or the client rejected the answer. */
  function Send(x: Suite, card: State, client: Option<Session>, ghost p: Plain, c: Command): (e: Exchange)
    requires card.Valid() && |p.keys| == 5 && Allowed(x, p, c)
    requires client.Some? <==> p.counted.Some?
  {
    match c
    case SelectApp => Plainly(x, card, client, DF_SELECT, 0x90, 0x00)
    case SelectFile => Plainly(x, card, client, EF_SELECT, 0x90, 0x00)
    case Authenticate(slot, key, rndA, caps) => Handshake(x, card, client, slot, key, rndA, caps)
    case RejectedAuthentication(slot, payload) => RejectedHandshake(x, card, client, slot, payload)
    case GetVersion => VersionExchange(x, card, client)
    case ReadSettingsPlain => Plainly(x, card, client, [0x90, 0xF5, 0x00, 0x00, 0x01, 0x02, 0x00], 0x91, 0x00)
    case ReadSettings => Securely(x, card, client.value, MacApdu(x, client.value, 0xF5, 0x02))
    case ChangeSettings(patch) =>
      Securely(x, card, client.value, CipherApdu(x, client.value, 0x5F, 0x02, Cbc.PadM2(patch)))
    case ChangeKey(slot, newKey, oldKey, version, crc) =>
      var apdu := CipherApdu(x, client.value, 0xC4, slot, KeyPlaintext(slot, newKey, oldKey, version, crc));
      if slot == 0 then
        var e := Plainly(x, card, client, apdu, 0x91, 0x00);
        if e.Broken? then Broken else e.(client := None)
      else Securely(x, card, client.value, apdu)
    case ReadKeyVersion(slot) => Securely(x, card, client.value, MacApdu(x, client.value, 0x64, slot))
    case Read(offset, length) =>
      var e := Plainly(x, card, client, [0x90, 0xAD, 0x00, 0x00, 0x07, 0x02] + Le24(offset) + Le24(length) + [0x00],
                       0x91, 0x00);
      if e.Broken? then Broken else e.(client := Count(client))
    case Write(offset, data) =>
      var e := Plainly(x, card, client,
        [0x90, 0x8D, 0x00, 0x00, 7 + |data|, 0x02] + Le24(offset) + Le24(|data|) + data + [0x00], 0x91, 0x00);
      if e.Broken? then Broken else e.(client := Count(client))
    case IsoRead(offset, want) =>
      Plainly(x, card, client, [0x00, 0xB0, offset / 256, offset % 256, want % 256], 0x90, 0x00)
    case IsoUpdate(data) => Plainly(x, card, client, [0x00, 0xD6, 0x00, 0x00, |data|] + data, 0x90, 0x00)
  }

  // The simulation.

  /** Card and client share one session, counted alike, and the card holds what the plain device holds. */
  ghost predicate InLockstep(card: State, client: Option<Session>, p: Plain) {
    && card.Valid()
    && card.pending.None? && card.versionStep == 0
    && card.keys == p.keys && card.versions == p.versions && card.ndef == p.ndef && card.settings == p.settings
    && card.appSelected == p.appSelected && card.efSelected == p.efSelected
    && card.session == client
    && (client.Some? <==> p.counted.Some?)
    && (client.Some? ==> client.value.counter == p.counted.value % 0x1_0000)
  }

  lemma BumpIsSuccessor(n: nat)
    ensures Bumped(n % 0x1_0000) == (n + 1) % 0x1_0000
  {
  }

  /** Both sides count a command: the lockstep survives. */
  lemma CountingKeepsLockstep(card: State, client: Option<Session>, p: Plain)
    requires InLockstep(card, client, p)
    ensures InLockstep(Counted(card), Count(client), Tick(p))
  {
    if client.Some? {
      BumpIsSuccessor(p.counted.value);
    }
  }

  lemma CardChallenges(x: Suite, card: State, slot: byte, caps: seq<byte>)
    requires card.Valid() && card.appSelected && slot < 5 && |caps| in {0, 3}
    ensures Step(x, card, AuthApdu(slot, caps))
         == Answered(card.(pending := Some(Pending(card.keys[slot], RND_B))),
                     Cbc.Encrypt(x, card.keys[slot], ZERO_BLOCK, RND_B), 0x91, 0xAF)
  {
  }

  /** The card accepts exactly the answers whose second block is the rotated challenge. */
  lemma CardDecides(x: Suite, card: State, payload: seq<byte>)
    requires card.Valid() && card.pending.Some? && |payload| == 32
    ensures var p := card.pending.value;
      var plain := Cbc.Decrypt(x, p.key, ZERO_BLOCK, payload);
      Step(x, card, AuthReplyApdu(payload)) ==
        if plain[16..] == RotateLeft(p.rndB)
        then Ok(card.(pending := None, session := Some(NewSession(x, p.key, plain[..16], p.rndB))),
                Cbc.Encrypt(x, p.key, ZERO_BLOCK, TI + RotateLeft(plain[..16]) + Zeros(12)))
        else Answered(card.(pending := None), [], 0x91, 0xAE)
  {
    var apdu := AuthReplyApdu(payload);
    assert apdu[5..37] == payload && apdu[..5] == [0x90, 0xAF, 0x00, 0x00, 0x20];
  }

  /** What the card finds in the client's answer to a challenge. */
  lemma AnswerDecrypts(x: Suite, key: Block, rndA: Block, rndB: Block)
    ensures var answer := ClientAnswer(x, key, rndA, Cbc.Encrypt(x, key, ZERO_BLOCK, rndB));
      Cbc.Decrypt(x, key, ZERO_BLOCK, answer) == rndA + RotateLeft(rndB)
  {
    Cbc.DecryptUndoesEncrypt(x, key, ZERO_BLOCK, rndB);
    Cbc.DecryptUndoesEncrypt(x, key, ZERO_BLOCK, rndA + RotateLeft(rndB));
  }

  /** What the client makes of the card's proof. */
  lemma ProofAccepted(x: Suite, key: Block, rndA: Block, rndB: Block, ti: Ti)
    ensures var challenge := Cbc.Encrypt(x, key, ZERO_BLOCK, rndB);
      var proof := Cbc.Encrypt(x, key, ZERO_BLOCK, ti + RotateLeft(rndA) + Zeros(12));
      ClientSession(x, key, rndA, challenge, proof) == Some(NewSession(x, key, rndA, rndB).(ti := ti))
  {
    var reply := ti + RotateLeft(rndA) + Zeros(12);
    Cbc.DecryptUndoesEncrypt(x, key, ZERO_BLOCK, rndB);
    Cbc.DecryptUndoesEncrypt(x, key, ZERO_BLOCK, reply);
    assert reply[4..20] == RotateLeft(rndA) && reply[..4] == ti;
  }

  lemma CardAccepts(x: Suite, card: State, key: Block, rndA: Block, payload: seq<byte>)
    requires card.Valid() && card.pending == Some(Pending(key, RND_B))
    requires |payload| == 32 && Cbc.Decrypt(x, key, ZERO_BLOCK, payload) == rndA + RotateLeft(RND_B)
    ensures Step(x, card, AuthReplyApdu(payload))
         == Ok(card.(pending := None, session := Some(NewSession(x, key, rndA, RND_B))),
               Cbc.Encrypt(x, key, ZERO_BLOCK, TI + RotateLeft(rndA) + Zeros(12)))
  {
    var plain := rndA + RotateLeft(RND_B);
    assert plain[..16] == rndA && plain[16..] == RotateLeft(RND_B);
    CardDecides(x, card, payload);
  }

  lemma ReplyAnswered(x: Suite, card: State, client: Option<Session>, key: Block, rndA: Block, payload: seq<byte>)
    requires card.Valid() && card.pending == Some(Pending(key, RND_B))
    requires |payload| == 32 && Cbc.Decrypt(x, key, ZERO_BLOCK, payload) == rndA + RotateLeft(RND_B)
    ensures Plainly(x, card, client, AuthReplyApdu(payload), 0x91, 0x00)
         == Exchanged(card.(pending := None, session := Some(NewSession(x, key, rndA, RND_B))), client,
                      Cbc.Encrypt(x, key, ZERO_BLOCK, TI + RotateLeft(rndA) + Zeros(12)))
  {
    CardAccepts(x, card, key, rndA, payload);
  }

  lemma ProofConcludes(x: Suite, card: State, client: Option<Session>, key: Block, rndA: Block, rndB: Block, ti: Ti)
    ensures var challenge := Cbc.Encrypt(x, key, ZERO_BLOCK, rndB);
      var proof := Cbc.Encrypt(x, key, ZERO_BLOCK, ti + RotateLeft(rndA) + Zeros(12));
      Conclude(x, key, rndA, challenge, Exchanged(card, client, proof))
        == Exchanged(card, Some(NewSession(x, key, rndA, rndB).(ti := ti)), [])
  {
    ProofAccepted(x, key, rndA, rndB, ti);
  }

  lemma AnswerCompletes(x: Suite, card: State, client: Option<Session>, key: Block, rndA: Block)
    requires card.Valid() && card.pending == Some(Pending(key, RND_B))
    ensures var s := Some(NewSession(x, key, rndA, RND_B));
      var challenge := Cbc.Encrypt(x, key, ZERO_BLOCK, RND_B);
      AnswerChallenge(x, client, key, rndA, Exchanged(card, client, challenge))
        == Exchanged(card.(pending := None, session := s), s, [])
  {
    var s := NewSession(x, key, rndA, RND_B);
    AnswerDecrypts(x, key, rndA, RND_B);
    ReplyAnswered(x, card, client, key, rndA, ClientAnswer(x, key, rndA, Cbc.Encrypt(x, key, ZERO_BLOCK, RND_B)));
    ProofConcludes(x, card.(pending := None, session := Some(s)), client, key, rndA, RND_B, TI);
    assert s.(ti := TI) == s;
  }

  /** An honest client holding the slot key completes the handshake with the card's own session. */
  lemma HandshakeCompletes(x: Suite, card: State, client: Option<Session>, slot: byte, key: Block, rndA: Block,
                           caps: seq<byte>)
    requires card.Valid() && card.appSelected && slot < 5 && key == card.keys[slot] && |caps| in {0, 3}
    ensures var s := Some(NewSession(x, key, rndA, RND_B));
      Handshake(x, card, client, slot, key, rndA, caps) == Exchanged(card.(pending := None, session := s), s, [])
  {
    CardChallenges(x, card, slot, caps);
    AnswerCompletes(x, card.(pending := Some(Pending(key, RND_B))), client, key, rndA);
  }

  lemma RejectionChangesNothing(x: Suite, card: State, client: Option<Session>, slot: byte, payload: seq<byte>)
    requires card.Valid() && card.appSelected && slot < 5 && |payload| == 32 && card.pending.None?
    ensures RejectedHandshake(x, card, client, slot, payload) == Exchanged(card, client, [])
       <==> Cbc.Decrypt(x, card.keys[slot], ZERO_BLOCK, payload)[16..] != RotateLeft(RND_B)
  {
    CardChallenges(x, card, slot, []);
    CardDecides(x, card.(pending := Some(Pending(card.keys[slot], RND_B))), payload);
  }

  lemma MacApduAccepted(x: Suite, s: Session, ins: byte, arg: byte)
    ensures var a := MacApdu(x, s, ins, arg);
      |a| == 15 && a[..5] == [0x90, ins, 0x00, 0x00, 0x09] && a[5] == arg && a[14] == 0x00
      && a[6..14] == CommandMac(x, s, ins, [arg], [])
  {
  }

  /** The card recovers the plaintext the client encrypted, under the MAC the client computed. */
  lemma CipherApduAccepted(x: Suite, s: Session, ins: byte, arg: byte, plain: seq<byte>)
    requires plain != [] && Cbc.WholeBlocks(plain) && |plain| <= 240
    ensures var a := CipherApdu(x, s, ins, arg, plain);
      var body := a[6..|a| - 9];
      && |a| == |plain| + 15 && a[0] == 0x90 && a[1] == ins && a[4] == 9 + |plain| && a[5] == arg && a[|a| - 1] == 0x00
      && a[|a| - 9..|a| - 1] == CommandMac(x, s, ins, [arg], body)
      && DecryptCommand(x, s, body) == Some(plain)
  {
    var body := Cbc.Encrypt(x, s.encKey, CommandIv(x, s), plain);
    var a := CipherApdu(x, s, ins, arg, plain);
    assert a[6..|a| - 9] == body;
    Cbc.DecryptUndoesEncrypt(x, s.encKey, CommandIv(x, s), plain);
  }

  /** A correctly MACed answer is accepted by a client in the same session, and both count it. */
  lemma SecurelyAccepted(x: Suite, card: State, client: Session, apdu: seq<byte>, mid: State, data: seq<byte>)
    requires card.Valid() && mid.session == Some(client)
    requires Step(x, card, apdu) == OkWithMac(x, mid, data)
    ensures Securely(x, card, client, apdu)
         == Exchanged(mid.(session := Some(Advance(client))), Some(Advance(client)), data)
  {
    var o := Step(x, card, apdu);
    assert o.data[..|o.data| - 8] == data && o.data[|o.data| - 8..] == ResponseMac(x, client, data);
  }

  lemma PatchParts(settings: seq<byte>, patch: seq<byte>)
    requires |settings| >= 7 && |patch| >= 3
    ensures var patched := PatchSettings(settings, patch).value;
      && patched[0] == settings[0] && patched[4..7] == settings[4..7]
      && patched[1..4] + patched[7..] == patch
  {
    assert patch == patch[..3] + patch[3..];
  }

  lemma ChangeSettingsDispatched(x: Suite, card: State, client: Session, a: seq<byte>, plain: seq<byte>,
                                 patch: seq<byte>)
    requires card.Valid() && card.appSelected && card.session == Some(client)
    requires |card.settings| >= 7 && |patch| >= 3 && plain == Cbc.PadM2(patch)
    requires |a| >= 31 && a[0] == 0x90 && a[1] == 0x5F && a[5] == 0x02 && a[|a| - 1] == 0x00
    requires a[|a| - 9..|a| - 1] == CommandMac(x, client, 0x5F, [0x02], a[6..|a| - 9])
    requires DecryptCommand(x, client, a[6..|a| - 9]) == Some(plain)
    ensures Step(x, card, a) == OkWithMac(x, card.(settings := PatchSettings(card.settings, patch).value), [])
  {
    Cbc.StripRecovers(patch);
  }

  lemma ChangeSettingsInstalled(x: Suite, card: State, client: Session, patch: seq<byte>)
    requires card.Valid() && card.appSelected && card.session == Some(client)
    requires |card.settings| >= 7 && 3 <= |patch| <= 239
    ensures var patched := PatchSettings(card.settings, patch).value;
      && Securely(x, card, client, CipherApdu(x, client, 0x5F, 0x02, Cbc.PadM2(patch)))
           == Exchanged(card.(settings := patched, session := Some(Advance(client))), Some(Advance(client)), [])
      && patched[0] == card.settings[0] && patched[4..7] == card.settings[4..7]
      && patched[1..4] + patched[7..] == patch
  {
    var plain := Cbc.PadM2(patch);
    CipherApduAccepted(x, client, 0x5F, 0x02, plain);
    var apdu := CipherApdu(x, client, 0x5F, 0x02, plain);
    ChangeSettingsDispatched(x, card, client, apdu, plain, patch);
    var mid := card.(settings := PatchSettings(card.settings, patch).value);
    SecurelyAccepted(x, card, client, apdu, mid, []);
    PatchParts(card.settings, patch);
  }

  lemma KeyPlaintextParts(slot: nat, newKey: Block, oldKey: Block, version: byte, crc: seq<byte>)
    requires |crc| == 4
    ensures var p := KeyPlaintext(slot, newKey, oldKey, version, crc);
      p[16] == version && p[..16] == if slot == 0 then newKey else Xor(newKey, oldKey)
  {
  }

  lemma ChangeKeyDispatched(x: Suite, card: State, client: Session, a: seq<byte>, slot: byte, plain: seq<byte>)
    requires card.Valid() && card.appSelected && card.session == Some(client) && slot < 5
    requires |a| == 47 && a[0] == 0x90 && a[1] == 0xC4 && a[4] == 41 && a[5] == slot && a[46] == 0x00 && |plain| == 32
    requires a[38..46] == CommandMac(x, client, 0xC4, [slot], a[6..38])
    requires DecryptCommand(x, client, a[6..38]) == Some(plain)
    ensures Step(x, card, a) == InstallKey(x, card, slot, plain)
  {
  }

  lemma ChangeKeyInstalled(x: Suite, card: State, client: Session, slot: byte, newKey: Block, oldKey: Block,
                           version: byte, crc: seq<byte>)
    requires card.Valid() && card.appSelected && card.session == Some(client) && slot < 5 && |crc| == 4
    ensures var apdu := CipherApdu(x, client, 0xC4, slot, KeyPlaintext(slot, newKey, oldKey, version, crc));
      Step(x, card, apdu) == InstallKey(x, card, slot, KeyPlaintext(slot, newKey, oldKey, version, crc))
  {
    var plain := KeyPlaintext(slot, newKey, oldKey, version, crc);
    CipherApduAccepted(x, client, 0xC4, slot, plain);
    ChangeKeyDispatched(x, card, client, CipherApdu(x, client, 0xC4, slot, plain), slot, plain);
  }

  lemma PlainReadStep(x: Suite, card: State, offset: nat, length: nat)
    requires card.Valid() && card.appSelected && offset <= |card.ndef| && offset < 0x100_0000 && length < 0x100_0000
    ensures Step(x, card, [0x90, 0xAD, 0x00, 0x00, 0x07, 0x02] + Le24(offset) + Le24(length) + [0x00])
         == Ok(Counted(card), NdefFile.NativeRead(card.ndef, offset, length).value)
  {
    var a := [0x90, 0xAD, 0x00, 0x00, 0x07, 0x02] + Le24(offset) + Le24(length) + [0x00];
    assert a[..5] == [0x90, 0xAD, 0x00, 0x00, 0x07];
    assert [a[6], a[7], a[8]] == Le24(offset) && [a[9], a[10], a[11]] == Le24(length);
  }

  lemma PlainWriteStep(x: Suite, card: State, offset: nat, data: seq<byte>)
    requires card.Valid() && card.appSelected && offset < 0x100_0000 && |data| <= 248
    ensures Step(x, card, [0x90, 0x8D, 0x00, 0x00, 7 + |data|, 0x02] + Le24(offset) + Le24(|data|) + data + [0x00])
         == Ok(Counted(card.(ndef := NdefFile.Write(card.ndef, offset, data))), [])
  {
    var a := [0x90, 0x8D, 0x00, 0x00, 7 + |data|, 0x02] + Le24(offset) + Le24(|data|) + data + [0x00];
    assert [a[6], a[7], a[8]] == Le24(offset) && [a[9], a[10], a[11]] == Le24(|data|);
    assert a[12..12 + |data|] == data;
  }

  lemma MacedStep(x: Suite, card: State, client: Session, c: Command)
    requires card.Valid() && card.appSelected && card.session == Some(client)
    requires c.ReadSettings? || (c.ReadKeyVersion? && c.slot < 5)
    ensures var ins := if c.ReadSettings? then 0xF5 else 0x64;
      var arg := if c.ReadSettings? then 0x02 else c.slot;
      var data := if c.ReadSettings? then card.settings else [card.versions[c.slot]];
      Securely(x, card, client, MacApdu(x, client, ins, arg))
        == Exchanged(card.(session := Some(Advance(client))), Some(Advance(client)), data)
  {
    var ins := if c.ReadSettings? then 0xF5 else 0x64;
    var arg := if c.ReadSettings? then 0x02 else c.slot;
    MacApduAccepted(x, client, ins, arg);
    SecurelyAccepted(x, card, client, MacApdu(x, client, ins, arg), card,
                     if c.ReadSettings? then card.settings else [card.versions[c.slot]]);
  }

  lemma IsoUpdateStep(x: Suite, card: State, data: seq<byte>)
    requires card.Valid() && card.appSelected && card.efSelected && |data| <= 255
    ensures Step(x, card, [0x00, 0xD6, 0x00, 0x00, |data|] + data) == IsoOk(card.(ndef := data), [])
  {
    var a := [0x00, 0xD6, 0x00, 0x00, |data|] + data;
    assert a[5..] == data && a[1] == 0xD6;
    assert DF_SELECT[1] == 0xA4 && EF_SELECT[1] == 0xA4;
  }

  ghost predicate Simulated(x: Suite, card: State, client: Option<Session>, p: Plain, c: Command)
    requires InLockstep(card, client, p) && Allowed(x, p, c)
  {
    var e := Send(x, card, client, p, c);
    e.Exchanged? && e.answer == PlainAnswer(x, p, c) && InLockstep(e.card, e.client, PlainNext(x, p, c))
  }

  lemma SlotKeyStep(x: Suite, card: State, client: Session, p: Plain, c: Command)
    requires InLockstep(card, Some(client), p) && Allowed(x, p, c) && c.ChangeKey? && c.slot != 0
    ensures var key := KeyAfterChange(card.keys[c.slot], c.slot, c.newKey, c.oldKey);
      var next := card.(keys := card.keys[c.slot := key], versions := card.versions[c.slot := c.version]);
      Send(x, card, Some(client), p, c) == Exchanged(Counted(next), Some(Advance(client)), [])
  {
    var plain := KeyPlaintext(c.slot, c.newKey, c.oldKey, c.version, c.crc);
    ChangeKeyInstalled(x, card, client, c.slot, c.newKey, c.oldKey, c.version, c.crc);
    KeyPlaintextParts(c.slot, c.newKey, c.oldKey, c.version, c.crc);
    var mid := card.(keys := card.keys[c.slot := Xor(plain[..16], card.keys[c.slot])],
                     versions := card.versions[c.slot := plain[16]]);
    SecurelyAccepted(x, card, client, CipherApdu(x, client, 0xC4, c.slot, plain), mid, []);
  }

  lemma MasterKeyStep(x: Suite, card: State, client: Session, p: Plain, c: Command)
    requires InLockstep(card, Some(client), p) && Allowed(x, p, c) && c.ChangeKey? && c.slot == 0
    ensures Send(x, card, Some(client), p, c)
         == Exchanged(card.(keys := card.keys[0 := c.newKey], versions := card.versions[0 := c.version],
                            session := None), None, [])
  {
    ChangeKeyInstalled(x, card, client, c.slot, c.newKey, c.oldKey, c.version, c.crc);
    KeyPlaintextParts(c.slot, c.newKey, c.oldKey, c.version, c.crc);
  }

  lemma ChangeKeyStep(x: Suite, card: State, client: Option<Session>, p: Plain, c: Command)
    requires InLockstep(card, client, p) && Allowed(x, p, c) && c.ChangeKey?
    ensures Simulated(x, card, client, p, c)
  {
    if c.slot == 0 {
      MasterKeyStep(x, card, client.value, p, c);
    } else {
      SlotKeyStep(x, card, client.value, p, c);
      var keys := card.keys[c.slot := KeyAfterChange(card.keys[c.slot], c.slot, c.newKey, c.oldKey)];
      var versions := card.versions[c.slot := c.version];
      CountingKeepsLockstep(card.(keys := keys, versions := versions), client, p.(keys := keys, versions := versions));
    }
  }

  lemma SelectSteps(x: Suite, card: State)
    requires card.Valid()
    ensures Step(x, card, DF_SELECT) == IsoOk(card.(appSelected := true, efSelected := false), [])
    ensures card.appSelected ==> Step(x, card, EF_SELECT) == IsoOk(card.(efSelected := true), [])
  {
  }

  lemma PlainSettingsStep(x: Suite, card: State)
    requires card.Valid() && card.appSelected
    ensures Step(x, card, [0x90, 0xF5, 0x00, 0x00, 0x01, 0x02, 0x00]) == Ok(card, card.settings)
  {
  }

  lemma VersionSteps(x: Suite, card: State, client: Option<Session>)
    requires card.Valid() && card.pending.None? && card.versionStep == 0
    ensures VersionExchange(x, card, client) == Exchanged(card, client, VERSION_PART1 + VERSION_PART2 + VERSION_PART3)
  {
    assert card.(versionStep := 0) == card;
  }

  lemma SelectionStep(x: Suite, card: State, client: Option<Session>, p: Plain, c: Command)
    requires InLockstep(card, client, p) && Allowed(x, p, c)
    requires c.SelectApp? || c.SelectFile? || c.GetVersion? || c.ReadSettingsPlain?
    ensures Simulated(x, card, client, p, c)
  {
    if c.GetVersion? {
      VersionSteps(x, card, client);
    } else if c.ReadSettingsPlain? {
      PlainSettingsStep(x, card);
    } else {
      SelectSteps(x, card);
    }
  }

  lemma IsoReadStep(x: Suite, card: State, offset: nat, want: nat)
    requires card.Valid() && card.appSelected && card.efSelected && offset < 0x8000 && 0 < want <= 256
    ensures Step(x, card, [0x00, 0xB0, offset / 256, offset % 256, want % 256])
         == IsoOk(card, NdefFile.IsoRead(card.ndef, offset, want))
  {
    assert FromBe16(offset / 256, offset % 256) == offset;
  }

  lemma IsoStep(x: Suite, card: State, client: Option<Session>, p: Plain, c: Command)
    requires InLockstep(card, client, p) && Allowed(x, p, c) && (c.IsoRead? || c.IsoUpdate?)
    ensures Simulated(x, card, client, p, c)
  {
    if c.IsoUpdate? {
      IsoUpdateStep(x, card, c.data);
    } else {
      IsoReadStep(x, card, c.offset, c.want);
    }
  }

  lemma FileStep(x: Suite, card: State, client: Option<Session>, p: Plain, c: Command)
    requires InLockstep(card, client, p) && Allowed(x, p, c) && (c.Read? || c.Write?)
    ensures Simulated(x, card, client, p, c)
  {
    if c.Read? {
      PlainReadStep(x, card, c.offset, c.length);
      CountingKeepsLockstep(card, client, p);
    } else {
      PlainWriteStep(x, card, c.offset, c.data);
      var ndef := NdefFile.Write(card.ndef, c.offset, c.data);
      CountingKeepsLockstep(card.(ndef := ndef), client, p.(ndef := ndef));
    }
  }

  lemma SecuredStep(x: Suite, card: State, client: Option<Session>, p: Plain, c: Command)
    requires InLockstep(card, client, p) && Allowed(x, p, c)
    requires c.ReadSettings? || c.ReadKeyVersion? || c.ChangeSettings?
    ensures Simulated(x, card, client, p, c)
  {
    if c.ChangeSettings? {
      ChangeSettingsInstalled(x, card, client.value, c.patch);
      var settings := PatchSettings(card.settings, c.patch).value;
      CountingKeepsLockstep(card.(settings := settings), client, p.(settings := settings));
    } else {
      MacedStep(x, card, client.value, c);
      CountingKeepsLockstep(card, client, p);
    }
  }

  /** One command: no panic, the answer is the plain device's, and the lockstep survives. */
  lemma LockstepStep(x: Suite, card: State, client: Option<Session>, p: Plain, c: Command)
    requires InLockstep(card, client, p) && Allowed(x, p, c)
    ensures Simulated(x, card, client, p, c)
  {
    if c.Authenticate? {
      HandshakeCompletes(x, card, client, c.slot, c.key, c.rndA, c.caps);
    } else if c.RejectedAuthentication? {
      RejectionChangesNothing(x, card, client, c.slot, c.payload);
    } else if c.ChangeKey? {
      ChangeKeyStep(x, card, client, p, c);
    } else if c.Read? || c.Write? {
      FileStep(x, card, client, p, c);
    } else if c.ReadSettings? || c.ReadKeyVersion? || c.ChangeSettings? {
      SecuredStep(x, card, client, p, c);
    } else if c.IsoRead? || c.IsoUpdate? {
      IsoStep(x, card, client, p, c);
    } else {
      SelectionStep(x, card, client, p, c);
    }
  }

  // Whole runs.

  ghost predicate RunAllowed(x: Suite, p: Plain, cs: seq<Command>)
    requires |p.keys| == 5 && |p.versions| == 5
    decreases |cs|
  {
    cs == [] || (Allowed(x, p, cs[0]) && RunAllowed(x, PlainNext(x, p, cs[0]), cs[1..]))
  }

  ghost function PlainRun(x: Suite, p: Plain, cs: seq<Command>): (r: Plain)
    requires |p.keys| == 5 && |p.versions| == 5 && RunAllowed(x, p, cs)
    decreases |cs|
  {
    if cs == [] then p else PlainRun(x, PlainNext(x, p, cs[0]), cs[1..])
  }

  ghost function PlainAnswers(x: Suite, p: Plain, cs: seq<Command>): (r: seq<seq<byte>>)
    requires |p.keys| == 5 && |p.versions| == 5 && RunAllowed(x, p, cs)
    decreases |cs|
  {
    if cs == [] then [] else [PlainAnswer(x, p, cs[0])] + PlainAnswers(x, PlainNext(x, p, cs[0]), cs[1..])
  }

  datatype Run = Failed | Finished(card: State, client: Option<Session>, answers: seq<seq<byte>>)

  /** The client sends the commands in order and gives up at the first broken exchange. */
  ghost function Drive(x: Suite, card: State, client: Option<Session>, p: Plain, cs: seq<Command>): (r: Run)
    requires |p.keys| == 5 && |p.versions| == 5 && RunAllowed(x, p, cs)
    decreases |cs|
  {
    if cs == [] then Finished(card, client, [])
    else if !card.Valid() || !(client.Some? <==> p.counted.Some?) then Failed
    else
      var e := Send(x, card, client, p, cs[0]);
      if e.Broken? then Failed
      else
        var rest := Drive(x, e.card, e.client, PlainNext(x, p, cs[0]), cs[1..]);
        if rest.Failed? then Failed else rest.(answers := [e.answer] + rest.answers)
  }

  /** The card under secure messaging simulates the plain device over every allowed run. */
  lemma {:induction false} RunInLockstep(x: Suite, card: State, client: Option<Session>, p: Plain, cs: seq<Command>)
    requires InLockstep(card, client, p) && RunAllowed(x, p, cs)
    ensures var r := Drive(x, card, client, p, cs);
      && r.Finished? && r.answers == PlainAnswers(x, p, cs)
      && InLockstep(r.card, r.client, PlainRun(x, p, cs))
    decreases |cs|
  {
    if cs != [] {
      LockstepStep(x, card, client, p, cs[0]);
      var e := Send(x, card, client, p, cs[0]);
      RunInLockstep(x, e.card, e.client, PlainNext(x, p, cs[0]), cs[1..]);
    }
  }

  // What moves the counter.

  predicate IsCounted(c: Command) {
    c.ReadSettings? || c.ChangeSettings? || c.ChangeKey? || c.ReadKeyVersion? || c.Read? || c.Write?
  }

  function NumCounted(cs: seq<Command>): (n: nat) {
    if cs == [] then 0 else (if IsCounted(cs[0]) then 1 else 0) + NumCounted(cs[1..])
  }

  /** Commands that leave the authentication they run under in place. */
  predicate KeepsSession(cs: seq<Command>) {
    forall i :: 0 <= i < |cs| ==> !cs[i].Authenticate? && !(cs[i].ChangeKey? && cs[i].slot == 0)
  }

  lemma {:induction false} PlainCounts(x: Suite, p: Plain, cs: seq<Command>)
    requires |p.keys| == 5 && |p.versions| == 5 && RunAllowed(x, p, cs)
    requires p.counted.Some? && KeepsSession(cs)
    ensures PlainRun(x, p, cs).counted == Some(p.counted.value + NumCounted(cs))
    decreases |cs|
  {
    if cs != [] {
      PlainCounts(x, PlainNext(x, p, cs[0]), cs[1..]);
    }
  }

  /** The run authenticates first and keeps that session to its end. */
  predicate OneAuthentication(run: seq<Command>) {
    run != [] && run[0].Authenticate? && KeepsSession(run[1..])
  }

  lemma PlainCountsFromAuth(x: Suite, p: Plain, run: seq<Command>)
    requires |p.keys| == 5 && |p.versions| == 5 && RunAllowed(x, p, run) && OneAuthentication(run)
    ensures PlainRun(x, p, run).counted == Some(NumCounted(run[1..]))
  {
    PlainCounts(x, PlainNext(x, p, run[0]), run[1..]);
  }

  /**
   From an authentication on, the card's counter is the number of counted commands mod 2^16,
   whatever uncounted commands and rejected re-authentications are mixed in.
   */
  lemma CounterCountsCommands(x: Suite, card: State, client: Option<Session>, p: Plain, run: seq<Command>)
    requires InLockstep(card, client, p) && RunAllowed(x, p, run) && OneAuthentication(run)
    ensures var r := Drive(x, card, client, p, run);
      && r.Finished? && r.card.session == r.client
      && r.client.Some? && r.client.value.counter == NumCounted(run[1..]) % 0x1_0000
  {
    RunInLockstep(x, card, client, p, run);
    PlainCountsFromAuth(x, p, run);
  }

  // Key changes.

  /** A key change installs the new key exactly when the old key was named rightly. */
  lemma KeyChangeExact(stored: Block, slot: nat, newKey: Block, oldKey: Block)
    requires slot != 0
    ensures KeyAfterChange(stored, slot, newKey, oldKey) == newKey <==> oldKey == stored
    ensures forall i :: 0 <= i < 16 ==>
      KeyAfterChange(stored, slot, newKey, oldKey)[i] == XorByte(XorByte(newKey[i], oldKey[i]), stored[i])
  {
    var mask := Xor(newKey, oldKey);
    XorCancels(newKey, oldKey);
    XorCancels(mask, stored);
    if Xor(mask, stored) == newKey {
      assert Xor(newKey, stored) == Xor(newKey, oldKey);
      forall i | 0 <= i < 16
        ensures stored[i] == oldKey[i]
      {
        XorByteRecovers(newKey[i], stored[i]);
        XorByteRecovers(newKey[i], oldKey[i]);
        assert XorByte(newKey[i], stored[i]) == Xor(newKey, stored)[i] == Xor(newKey, oldKey)[i];
      }
      assert stored == oldKey;
    }
  }

  lemma XorByteRecovers(a: byte, b: byte)
    ensures XorByte(a, XorByte(a, b)) == b
  {
    XorBitsCommutes(a, b, 8);
    XorByteCancels(b, a);
  }

  lemma KeyChangeSent(x: Suite, card: State, client: Option<Session>, p: Plain, c: Command)
    requires InLockstep(card, client, p) && Allowed(x, p, c) && c.ChangeKey? && c.slot != 0
      && c.oldKey == p.keys[c.slot]
    ensures var e := Send(x, card, client, p, c);
      && e.Exchanged? && InLockstep(e.card, e.client, PlainNext(x, p, c))
      && PlainNext(x, p, c) == Tick(p.(keys := p.keys[c.slot := c.newKey], versions := p.versions[c.slot := c.version]))
  {
    ChangeKeyStep(x, card, client, p, c);
    KeyChangeExact(p.keys[c.slot], c.slot, c.newKey, c.oldKey);
  }

  /** With the right old key exactly the named slot changes, and changing it back restores every key and version. */
  lemma KeyChangeReverts(x: Suite, card: State, client: Option<Session>, p: Plain, there: Command, back: Command)
    requires InLockstep(card, client, p) && Allowed(x, p, there)
    requires there.ChangeKey? && there.slot != 0 && there.oldKey == p.keys[there.slot]
    requires back.ChangeKey?
      && back == ChangeKey(there.slot, there.oldKey, there.newKey, p.versions[there.slot], back.crc) && |back.crc| == 4
    ensures var e := Send(x, card, client, p, there);
      && e.Exchanged? && e.client.Some?
      && e.card.keys == card.keys[there.slot := there.newKey]
      && e.card.versions == card.versions[there.slot := there.version]
      && e.card.(keys := card.keys, versions := card.versions, session := card.session) == card
      && Allowed(x, PlainNext(x, p, there), back) && e.card.Valid()
      && (var e2 := Send(x, e.card, e.client, PlainNext(x, p, there), back);
          e2.Exchanged? && e2.card.(session := card.session) == card)
  {
    KeyChangeSent(x, card, client, p, there);
    var e := Send(x, card, client, p, there);
    var q := PlainNext(x, p, there);
    KeyChangeSent(x, e.card, e.client, q, back);
    assert q.keys[there.slot := there.oldKey] == p.keys && q.versions[there.slot := back.version] == p.versions;
  }

  /** A master key change installs the key and closes the session on both sides. */
  lemma MasterChangeEndsSession(x: Suite, card: State, client: Option<Session>, p: Plain, newKey: Block, oldKey: Block,
                                version: byte, crc: seq<byte>)
    requires InLockstep(card, client, p) && p.appSelected && client.Some? && |crc| == 4
    ensures var c := ChangeKey(0, newKey, oldKey, version, crc);
      var e := Send(x, card, client, p, c);
      && e.Exchanged? && e.client.None? && e.card.session.None?
      && e.card.keys == card.keys[0 := newKey] && e.card.versions == card.versions[0 := version]
  {
    LockstepStep(x, card, client, p, ChangeKey(0, newKey, oldKey, version, crc));
  }

  // The NDEF file over a run.

  function Updates(cs: seq<Command>): (us: seq<NdefFile.Update>) {
    if cs == [] then []
    else if cs[0].Write? then [NdefFile.Native(cs[0].offset, cs[0].data)] + Updates(cs[1..])
    else if cs[0].IsoUpdate? then [NdefFile.Iso(cs[0].data)] + Updates(cs[1..])
    else Updates(cs[1..])
  }

  lemma {:induction false} NdefFollowsUpdates(x: Suite, p: Plain, cs: seq<Command>)
    requires |p.keys| == 5 && |p.versions| == 5 && RunAllowed(x, p, cs)
    ensures PlainRun(x, p, cs).ndef == NdefFile.After(p.ndef, Updates(cs))
    decreases |cs|
  {
    if cs != [] {
      var c := cs[0];
      NdefFollowsUpdates(x, PlainNext(x, p, c), cs[1..]);
      if c.Write? {
        NdefFile.AfterFirst(p.ndef, NdefFile.Native(c.offset, c.data), Updates(cs[1..]));
      } else if c.IsoUpdate? {
        NdefFile.AfterFirst(p.ndef, NdefFile.Iso(c.data), Updates(cs[1..]));
      }
    }
  }

  /** After any run the card's file is, byte for byte, what the history of updates says. */
  lemma CardFileMatchesHistory(x: Suite, card: State, client: Option<Session>, p: Plain, cs: seq<Command>)
    requires InLockstep(card, client, p) && RunAllowed(x, p, cs)
    ensures var r := Drive(x, card, client, p, cs);
      && r.Finished? && |r.card.ndef| == NdefFile.SizeAfter(|card.ndef|, Updates(cs))
      && forall i :: 0 <= i < |r.card.ndef| ==> r.card.ndef[i] == NdefFile.ByteAfter(card.ndef, Updates(cs), i)
  {
    RunInLockstep(x, card, client, p, cs);
    NdefFollowsUpdates(x, p, cs);
    NdefFile.UpdatesMatchHistory(p.ndef, Updates(cs));
  }
}
