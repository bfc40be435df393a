/** What the card does with its commands, in bytes: fixed answers, challenges, session keys, MACs and IVs. */
module ApduBytes {
  import opened Bytes
  import opened CardSpec
  import opened SessionCrypto
  import Cbc
  import Lockstep

  // Fixed bytes.

  lemma SelectBytes(x: Suite, s: State)
    requires s.Valid()
    ensures Step(x, s, [0x00, 0xA4, 0x04, 0x00, 0x07, 0xD2, 0x76, 0x00, 0x00, 0x85, 0x01, 0x01, 0x00])
         == Answered(s.(appSelected := true, efSelected := false), [], 0x90, 0x00)
    ensures s.appSelected ==>
      Step(x, s, [0x00, 0xA4, 0x00, 0x0C, 0x02, 0xE1, 0x04]) == Answered(s.(efSelected := true), [], 0x90, 0x00)
  {
  }

  lemma UidBytes(x: Suite, s: State)
    requires s.Valid()
    ensures Step(x, s, [0xFF, 0xCA, 0x00, 0x00, 0x00])
         == Answered(s, [0x04, 0x10, 0x65, 0xFA, 0x96, 0x73, 0x80], 0x90, 0x00)
  {
  }

  /** The three frames of the version: hardware, software, and the UID with its production data. */
  lemma VersionBytes(x: Suite, s: State)
    requires s.Valid() && s.pending.None?
    ensures Step(x, s, [0x90, 0x60, 0x00, 0x00, 0x00])
         == Answered(s.(versionStep := 1), [0x04, 0x04, 0x08, 0x30, 0x00, 0x11, 0x05], 0x91, 0xAF)
    ensures s.versionStep == 1 ==>
      Step(x, s, [0x90, 0xAF, 0x00, 0x00, 0x00])
        == Answered(s.(versionStep := 2), [0x04, 0x04, 0x02, 0x01, 0x02, 0x11, 0x05], 0x91, 0xAF)
    ensures s.versionStep == 2 ==>
      Step(x, s, [0x90, 0xAF, 0x00, 0x00, 0x00])
        == Answered(s.(versionStep := 0),
                    [0x04, 0x10, 0x65, 0xFA, 0x96, 0x73, 0x80, 0xCF, 0x5D, 0x90, 0x45, 0x10, 0x46, 0x21], 0x91, 0x00)
  {
  }

  // Authentication.

  /** The first part is answered with the encrypted challenge of the mock card, under the key of the named slot. */
  lemma ChallengeBytes(x: Suite, s: State, slot: byte)
    requires s.Valid() && s.appSelected && slot < 5
    ensures
      var rndB := [0xB9, 0xE2, 0xFC, 0x78, 0x9B, 0x64, 0xBF, 0x23, 0x7C, 0xCC, 0xAA, 0x20, 0xEC, 0x7E, 0x6E, 0x48];
      var o := Step(x, s, [0x90, 0x71, 0x00, 0x00, 0x02, slot, 0x00, 0x00]);
      && o.Answered? && o.sw1 == 0x91 && o.sw2 == 0xAF
      && o.next == s.(pending := Some(Pending(s.keys[slot], rndB)))
      && Cbc.Decrypt(x, s.keys[slot], Zeros(16), o.data) == rndB
  {
    Cbc.DecryptUndoesEncrypt(x, s.keys[slot], ZERO_BLOCK, RND_B);
  }

  function ReplyApdu(payload: seq<byte>): (a: seq<byte>) {
    [0x90, 0xAF, 0x00, 0x00, 0x20] + payload + [0x00]
  }

  lemma ReplyDispatched(x: Suite, s: State, payload: seq<byte>)
    requires s.Valid() && s.pending.Some? && |payload| == 32
    ensures var p := s.pending.value;
      var plain := Cbc.Decrypt(x, p.key, ZERO_BLOCK, payload);
      Step(x, s, ReplyApdu(payload)) ==
        if plain[16..] == RotateLeft(p.rndB)
        then Answered(s.(pending := None, session := Some(NewSession(x, p.key, plain[..16], p.rndB))),
                      Cbc.Encrypt(x, p.key, ZERO_BLOCK, TI + RotateLeft(plain[..16]) + Zeros(12)), 0x91, 0x00)
        else Answered(s.(pending := None), [], 0x91, 0xAE)
  {
    var a := ReplyApdu(payload);
    assert a[5..37] == payload && a[..5] == [0x90, 0xAF, 0x00, 0x00, 0x20];
  }

  /** A reply whose second block is not the rotated challenge is refused and changes no session. */
  lemma ReplyRefused(x: Suite, s: State, payload: seq<byte>)
    requires s.Valid() && s.pending.Some? && |payload| == 32
    ensures var p := s.pending.value;
      var plain := Cbc.Decrypt(x, p.key, Zeros(16), payload);
      !Rotated(plain[16..], p.rndB) <==>
        Step(x, s, ReplyApdu(payload)) == Answered(s.(pending := None), [], 0x91, 0xAE)
  {
    var p := s.pending.value;
    ReplyDispatched(x, s, payload);
    RotatedExactly(Cbc.Decrypt(x, p.key, ZERO_BLOCK, payload)[16..], p.rndB);
  }

  /**
   A reply whose second block is the rotated challenge opens a session under the keys of the two session
   vectors, and is answered with the transaction identifier and the rotated first block.
   */
  lemma ReplyOpensSession(x: Suite, s: State, payload: seq<byte>, rndA: Block, sv1: seq<byte>, sv2: seq<byte>)
    requires s.Valid() && s.pending.Some? && |payload| == 32
    requires Cbc.Decrypt(x, s.pending.value.key, Zeros(16), payload)[..16] == rndA
    requires Rotated(Cbc.Decrypt(x, s.pending.value.key, Zeros(16), payload)[16..], s.pending.value.rndB)
    requires IsVector(sv1, 0xA5, 0x5A, rndA, s.pending.value.rndB)
    requires IsVector(sv2, 0x5A, 0xA5, rndA, s.pending.value.rndB)
    ensures var key, o := s.pending.value.key, Step(x, s, ReplyApdu(payload));
      && o.Answered? && o.sw1 == 0x91 && o.sw2 == 0x00 && |o.data| == 32
      && (var session := Session(x.cmac(key, sv1), x.cmac(key, sv2), [0x08, 0x5B, 0xC9, 0x41], 0);
          o.next == s.(pending := None, session := Some(session)))
      && (var proof := Cbc.Decrypt(x, key, Zeros(16), o.data);
          proof[..4] == [0x08, 0x5B, 0xC9, 0x41] && Rotated(proof[4..20], rndA) && proof[20..] == Zeros(12))
  {
    var p := s.pending.value;
    ReplyDispatched(x, s, payload);
    RotatedExactly(Cbc.Decrypt(x, p.key, ZERO_BLOCK, payload)[16..], p.rndB);
    SessionByVectors(x, p.key, rndA, p.rndB, sv1, sv2);
    ProofBytes(x, p.key, rndA);
  }

  lemma ProofBytes(x: Suite, key: Block, rndA: Block)
    ensures var reply := TI + RotateLeft(rndA) + Zeros(12);
      var proof := Cbc.Decrypt(x, key, Zeros(16), Cbc.Encrypt(x, key, ZERO_BLOCK, reply));
      proof[..4] == [0x08, 0x5B, 0xC9, 0x41] && Rotated(proof[4..20], rndA) && proof[20..] == Zeros(12)
  {
    var reply := TI + RotateLeft(rndA) + Zeros(12);
    Cbc.DecryptUndoesEncrypt(x, key, ZERO_BLOCK, reply);
    RotatedExactly(RotateLeft(rndA), rndA);
    assert reply[..4] == TI && reply[4..20] == RotateLeft(rndA) && reply[20..] == Zeros(12);
  }

  /** The handshake of a client that holds the slot key leaves both sides with the session of these two vectors. */
  lemma HandshakeKeys(x: Suite, s: State, client: Option<Session>, slot: byte, rndA: Block, caps: seq<byte>,
                      sv1: seq<byte>, sv2: seq<byte>)
    requires s.Valid() && s.appSelected && slot < 5 && |caps| in {0, 3}
    requires
      var rndB := [0xB9, 0xE2, 0xFC, 0x78, 0x9B, 0x64, 0xBF, 0x23, 0x7C, 0xCC, 0xAA, 0x20, 0xEC, 0x7E, 0x6E, 0x48];
      IsVector(sv1, 0xA5, 0x5A, rndA, rndB) && IsVector(sv2, 0x5A, 0xA5, rndA, rndB)
    ensures var key := s.keys[slot];
      var session := Some(Session(x.cmac(key, sv1), x.cmac(key, sv2), [0x08, 0x5B, 0xC9, 0x41], 0));
      Lockstep.Handshake(x, s, client, slot, key, rndA, caps)
        == Lockstep.Exchanged(s.(pending := None, session := session), session, [])
  {
    SessionByVectors(x, s.keys[slot], rndA, RND_B, sv1, sv2);
    Lockstep.HandshakeCompletes(x, s, client, slot, s.keys[slot], rndA, caps);
  }

  // MACed commands.

  /** A key version is given exactly to the MAC over the command, counter, identifier and slot, and MACed itself. */
  lemma KeyVersionBytes(x: Suite, s: State, slot: byte, mac: seq<byte>, input: seq<byte>, answer: seq<byte>)
    requires s.Valid() && s.appSelected && s.session.Some? && slot < 5 && |mac| == 8
    requires IsMacInput(input, 0x64, s.session.value.counter, s.session.value.ti, [slot])
    requires IsMacInput(answer, 0x00, (s.session.value.counter + 1) % 0x1_0000, s.session.value.ti, [s.versions[slot]])
    ensures var o := Step(x, s, [0x90, 0x64, 0x00, 0x00, 0x09, slot] + mac + [0x00]);
      && (o.Answered? <==> IsTruncated(mac, x.cmac(s.session.value.macKey, input)))
      && (o.Answered? ==>
            && |o.data| == 9 && o.data[0] == s.versions[slot] && o.sw1 == 0x91 && o.sw2 == 0x00
            && IsTruncated(o.data[1..], x.cmac(s.session.value.macKey, answer)))
  {
    var a := [0x90, 0x64, 0x00, 0x00, 0x09, slot] + mac + [0x00];
    assert a[6..14] == mac && a[..5] == [0x90, 0x64, 0x00, 0x00, 0x09] && a[14] == 0x00;
    assert [slot] + [] == [slot];
    CommandMacBytes(x, s.session.value, 0x64, [slot], [], input, mac);
    AnswerBytes(x, s, [s.versions[slot]], answer);
  }

  /** The settings are given exactly to the MAC over the command, counter, identifier and file, and MACed themselves. */
  lemma SettingsBytes(x: Suite, s: State, mac: seq<byte>, input: seq<byte>, answer: seq<byte>)
    requires s.Valid() && s.appSelected && s.session.Some? && |mac| == 8
    requires IsMacInput(input, 0xF5, s.session.value.counter, s.session.value.ti, [0x02])
    requires IsMacInput(answer, 0x00, (s.session.value.counter + 1) % 0x1_0000, s.session.value.ti, s.settings)
    ensures var o, n := Step(x, s, [0x90, 0xF5, 0x00, 0x00, 0x09, 0x02] + mac + [0x00]), |s.settings|;
      && (o.Answered? <==> IsTruncated(mac, x.cmac(s.session.value.macKey, input)))
      && (o.Answered? ==>
            && |o.data| == n + 8 && o.data[..n] == s.settings && o.sw1 == 0x91 && o.sw2 == 0x00
            && IsTruncated(o.data[n..], x.cmac(s.session.value.macKey, answer)))
  {
    var a := [0x90, 0xF5, 0x00, 0x00, 0x09, 0x02] + mac + [0x00];
    assert a[6..14] == mac && a[..5] == [0x90, 0xF5, 0x00, 0x00, 0x09] && a[14] == 0x00;
    assert [0x02] + [] == [0x02];
    CommandMacBytes(x, s.session.value, 0xF5, [0x02], [], input, mac);
    AnswerBytes(x, s, s.settings, answer);
  }

  lemma AnswerBytes(x: Suite, s: State, data: seq<byte>, answer: seq<byte>)
    requires s.session.Some?
    requires IsMacInput(answer, 0x00, (s.session.value.counter + 1) % 0x1_0000, s.session.value.ti, data)
    ensures var o, n := OkWithMac(x, s, data), |data|;
      && o.Answered? && |o.data| == n + 8 && o.data[..n] == data && o.sw1 == 0x91 && o.sw2 == 0x00
      && IsTruncated(o.data[n..], x.cmac(s.session.value.macKey, answer))
  {
    var mac := ResponseMac(x, s.session.value, data);
    ResponseMacBytes(x, s.session.value, data, answer, mac);
    assert (data + mac)[|data|..] == mac && (data + mac)[..|data|] == data;
  }

  lemma BodyApdu(ins: byte, len: byte, arg: byte, body: seq<byte>, mac: seq<byte>)
    requires |mac| == 8
    ensures var a := [0x90, ins, 0x00, 0x00, len, arg] + body + mac + [0x00];
      && |a| == |body| + 15 && a[0] == 0x90 && a[1] == ins && a[4] == len && a[5] == arg && a[|a| - 1] == 0x00
      && a[6..|a| - 9] == body && a[|a| - 9..|a| - 1] == mac
  {
  }

  lemma ChangeKeyDecided(x: Suite, s: State, a: seq<byte>, slot: byte, body: seq<byte>, mac: seq<byte>)
    requires s.Valid() && s.appSelected && s.session.Some? && slot < 5 && |body| == 32
    requires |a| == 47 && a[0] == 0x90 && a[1] == 0xC4 && a[4] == 0x29 && a[5] == slot && a[46] == 0x00
    requires a[6..38] == body && a[38..46] == mac
    ensures var o, session := Step(x, s, a), s.session.value;
      var plain := Cbc.Decrypt(x, session.encKey, CommandIv(x, session), body);
      if mac == CommandMac(x, session, 0xC4, [slot], body) then o == InstallKey(x, s, slot, plain) else o.Panicked?
  {
  }

  lemma Installed(x: Suite, s: State, slot: nat, plain: seq<byte>)
    requires s.Valid() && s.session.Some? && slot < 5 && |plain| == 32
    ensures var o := InstallKey(x, s, slot, plain);
      && o.Answered? && o.next.versions == s.versions[slot := plain[16]]
      && o.next.keys == s.keys[slot := if slot == 0 then plain[..16] else Xor(plain[..16], s.keys[slot])]
  {
  }

  /**
   A key is changed exactly under the MAC over the command, counter, identifier, slot and encrypted body. The
   body is decrypted after the encrypted block of the counter; its first block is the key, as it is for slot 0
   and under the stored key for any other, and the byte behind it is the version.
   */
  lemma ChangeKeyBytes(x: Suite, s: State, slot: byte, body: seq<byte>, mac: seq<byte>, input: seq<byte>, block: Block)
    requires s.Valid() && s.appSelected && s.session.Some? && slot < 5 && |body| == 32 && |mac| == 8
    requires IsMacInput(input, 0xC4, s.session.value.counter, s.session.value.ti, [slot] + body)
    requires IsIvInput(block, s.session.value.counter, s.session.value.ti)
    ensures var o := Step(x, s, [0x90, 0xC4, 0x00, 0x00, 0x29, slot] + body + mac + [0x00]);
      var key := s.session.value.encKey;
      var plain := Cbc.Decrypt(x, key, x.enc(key, block), body);
      && (o.Answered? <==> IsTruncated(mac, x.cmac(s.session.value.macKey, input)))
      && (o.Answered? ==>
            && o.next.versions == s.versions[slot := plain[16]]
            && o.next.keys == s.keys[slot := if slot == 0 then plain[..16] else Xor(plain[..16], s.keys[slot])])
  {
    BodyApdu(0xC4, 0x29, slot, body, mac);
    ChangeKeyDecided(x, s, [0x90, 0xC4, 0x00, 0x00, 0x29, slot] + body + mac + [0x00], slot, body, mac);
    CommandMacBytes(x, s.session.value, 0xC4, [slot], body, input, mac);
    CommandIvBytes(x, s.session.value, block);
    Installed(x, s, slot, Cbc.Decrypt(x, s.session.value.encKey, CommandIv(x, s.session.value), body));
  }

  lemma ChangeSettingsDecided(x: Suite, s: State, a: seq<byte>, body: seq<byte>, mac: seq<byte>)
    requires s.Valid() && s.appSelected && s.session.Some? && |s.settings| >= 7
    requires |a| >= 31 && a[0] == 0x90 && a[1] == 0x5F && a[5] == 0x02 && a[|a| - 1] == 0x00
    requires a[6..|a| - 9] == body && a[|a| - 9..|a| - 1] == mac && |body| % 16 == 0
    ensures var o, session := Step(x, s, a), s.session.value;
      var plain := Cbc.Decrypt(x, session.encKey, CommandIv(x, session), body);
      var n := Cbc.Stripped(plain);
      && (o.Answered? <==> mac == CommandMac(x, session, 0x5F, [0x02], body) && n.Some? && n.value >= 3)
      && (o.Answered? ==> o.next.settings == PatchSettings(s.settings, plain[..n.value]).value)
  {
  }

  lemma PatchBytes(settings: seq<byte>, plain: seq<byte>, n: nat)
    requires |settings| >= 7 && 3 <= n <= |plain|
    ensures PatchSettings(settings, plain[..n])
         == Some([settings[0]] + plain[..3] + settings[4..7] + plain[3..n])
  {
    assert plain[..n][..3] == plain[..3] && plain[..n][3..] == plain[3..n];
  }

  lemma ChangeSettingsPatched(x: Suite, s: State, a: seq<byte>, body: seq<byte>, mac: seq<byte>)
    requires s.Valid() && s.appSelected && s.session.Some? && |s.settings| >= 7
    requires |a| >= 31 && a[0] == 0x90 && a[1] == 0x5F && a[5] == 0x02 && a[|a| - 1] == 0x00
    requires a[6..|a| - 9] == body && a[|a| - 9..|a| - 1] == mac && |body| % 16 == 0
    ensures var o, session := Step(x, s, a), s.session.value;
      var plain := Cbc.Decrypt(x, session.encKey, CommandIv(x, session), body);
      var n := Cbc.Stripped(plain);
      && (o.Answered? <==> mac == CommandMac(x, session, 0x5F, [0x02], body) && n.Some? && n.value >= 3)
      && (o.Answered? ==> o.next.settings == [s.settings[0]] + plain[..3] + s.settings[4..7] + plain[3..n.value])
  {
    ChangeSettingsDecided(x, s, a, body, mac);
    var plain := Cbc.Decrypt(x, s.session.value.encKey, CommandIv(x, s.session.value), body);
    var n := Cbc.Stripped(plain);
    if n.Some? && n.value >= 3 {
      PatchBytes(s.settings, plain, n.value);
    }
  }

  /**
   The settings are patched exactly under the MAC over the command, counter, identifier, file and encrypted
   body, if that body is padded text of at least three bytes.
   */
  lemma ChangeSettingsBytes(x: Suite, s: State, body: seq<byte>, mac: seq<byte>, input: seq<byte>, block: Block)
    requires s.Valid() && s.appSelected && s.session.Some? && |s.settings| >= 7 && |mac| == 8
    requires 16 <= |body| <= 240 && |body| % 16 == 0
    requires IsMacInput(input, 0x5F, s.session.value.counter, s.session.value.ti, [0x02] + body)
    requires IsIvInput(block, s.session.value.counter, s.session.value.ti)
    ensures var o := Step(x, s, [0x90, 0x5F, 0x00, 0x00, 9 + |body|, 0x02] + body + mac + [0x00]);
      var key := s.session.value.encKey;
      var plain := Cbc.Decrypt(x, key, x.enc(key, block), body);
      var n := Cbc.Stripped(plain);
      && (o.Answered? <==> IsTruncated(mac, x.cmac(s.session.value.macKey, input)) && n.Some? && n.value >= 3)
      && (o.Answered? ==>
            o.next.settings == [s.settings[0]] + plain[..3] + s.settings[4..7] + plain[3..n.value])
  {
    BodyApdu(0x5F, 9 + |body|, 0x02, body, mac);
    ChangeSettingsPatched(x, s, [0x90, 0x5F, 0x00, 0x00, 9 + |body|, 0x02] + body + mac + [0x00], body, mac);
    CommandMacBytes(x, s.session.value, 0x5F, [0x02], body, input, mac);
    CommandIvBytes(x, s.session.value, block);
  }

  // The client's APDUs.

  lemma MacApduBytes(x: Suite, s: Session, ins: byte, arg: byte, input: seq<byte>, mac: seq<byte>)
    requires IsMacInput(input, ins, s.counter, s.ti, [arg]) && IsTruncated(mac, x.cmac(s.macKey, input))
    ensures Lockstep.MacApdu(x, s, ins, arg) == [0x90, ins, 0x00, 0x00, 0x09, arg] + mac + [0x00]
  {
    assert [arg] + [] == [arg];
    CommandMacBytes(x, s, ins, [arg], [], input, mac);
  }

  lemma CipherApduBytes(x: Suite, s: Session, ins: byte, arg: byte, plain: seq<byte>, block: Block, body: seq<byte>,
                        input: seq<byte>, mac: seq<byte>)
    requires plain != [] && |plain| % 16 == 0 && |plain| <= 240
    requires IsIvInput(block, s.counter, s.ti) && body == Cbc.Encrypt(x, s.encKey, x.enc(s.encKey, block), plain)
    requires IsMacInput(input, ins, s.counter, s.ti, [arg] + body) && IsTruncated(mac, x.cmac(s.macKey, input))
    ensures Lockstep.CipherApdu(x, s, ins, arg, plain)
         == [0x90, ins, 0x00, 0x00, 9 + |plain|, arg] + body + mac + [0x00]
  {
    CommandIvBytes(x, s, block);
    CommandMacBytes(x, s, ins, [arg], body, input, mac);
  }
}
