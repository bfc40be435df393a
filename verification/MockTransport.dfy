/**
 The card as the test transport implements it: an object whose handlers update
 its fields and run the cipher in place on buffers. Every handler is proved to do
 what `CardSpec` says of the state it started from.
 */
module MockTransport {
  import opened Bytes
  import opened CardSpec
  import opened SessionCrypto
  import Cbc

  datatype Reply = Panic | Reply(data: seq<byte>, sw1: byte, sw2: byte)

  /** The reply and the new state are the specified ones; after a panic there is no state to speak of. */
  predicate Matches(o: Outcome, r: Reply, s: State) {
    match o
    case Panicked => r.Panic?
    case Answered(next, data, sw1, sw2) => r == Reply(data, sw1, sw2) && s == next
  }

  class MockTransport {
    const x: Suite
    var keys: seq<Block>
    var versions: seq<byte>
    var ndef: seq<byte>
    var settings: seq<byte>
    var appSelected: bool
    var efSelected: bool
    var pending: Option<Pending>
    var session: Option<Session>
    var versionStep: nat

    function S(): (s: State)
      reads this
    {
      State(keys, versions, ndef, settings, appSelected, efSelected, pending, session, versionStep)
    }

    constructor (x: Suite, keys: seq<Block>, versions: seq<byte>, ndef: seq<byte>, settings: seq<byte>)
      requires |keys| == 5 && |versions| == 5
      ensures S() == State(keys, versions, ndef, settings, false, false, None, None, 0)
      ensures S().Valid() && this.x == x
    {
      this.x := x;
      this.keys, this.versions, this.ndef, this.settings := keys, versions, ndef, settings;
      appSelected, efSelected, pending, session, versionStep := false, false, None, None, 0;
    }

    method EncryptBlocks(key: Block, plain: seq<byte>) returns (c: seq<byte>)
      requires Cbc.WholeBlocks(plain) && plain != []
      ensures c == Cbc.Encrypt(x, key, ZERO_BLOCK, plain)
    {
      var buf := new byte[|plain|](i requires 0 <= i < |plain| => plain[i]);
      assert buf[..] == plain;
      Cbc.EncryptInPlace(x, key, ZERO_BLOCK, buf);
      return buf[..];
    }

    method DecryptBlocks(key: Block, iv: Block, cipher: seq<byte>) returns (p: seq<byte>)
      requires Cbc.WholeBlocks(cipher) && cipher != []
      ensures p == Cbc.Decrypt(x, key, iv, cipher)
    {
      var buf := new byte[|cipher|](i requires 0 <= i < |cipher| => cipher[i]);
      assert buf[..] == cipher;
      Cbc.DecryptInPlace(x, key, iv, buf);
      return buf[..];
    }

    method HandleAuthPart1(a: seq<byte>) returns (r: Reply)
      requires S().Valid()
      modifies this
      ensures Matches(AuthPart1(x, old(S()), a), r, S())
    {
      if !appSelected || (|a| != 8 && |a| != 11) || a[5] >= 5 {
        return Panic;
      }
      var key := keys[a[5]];
      var enc := EncryptBlocks(key, RND_B);
      pending := Some(Pending(key, RND_B));
      return Reply(enc, 0x91, 0xAF);
    }

    method HandleAuthPart2(a: seq<byte>) returns (r: Reply)
      requires pending.Some?
      modifies this
      ensures Matches(AuthPart2(x, old(S()), a), r, S())
    {
      var p := pending.value;
      pending := None;
      if |a| != 38 || a[..5] != [0x90, 0xAF, 0x00, 0x00, 0x20] || a[37] != 0x00 {
        return Panic;
      }
      var plain := DecryptBlocks(p.key, ZERO_BLOCK, a[5..37]);
      var rndA: Block := plain[..16];
      if plain[16..] != RotateLeft(p.rndB) {
        return Reply([], 0x91, 0xAE);
      }
      var response := EncryptBlocks(p.key, TI + RotateLeft(rndA) + Zeros(12));
      var encKey, macKey := DeriveSessionKeys(x, p.key, rndA, p.rndB);
      session := Some(Session(encKey, macKey, TI, 0));
      return Reply(response, 0x91, 0x00);
    }

    /** The MACed answer, computed before the counter moves. */
    method RespondWithMac(data: seq<byte>) returns (r: Reply)
      requires session.Some?
      modifies this
      ensures Matches(OkWithMac(x, old(S()), data), r, S())
    {
      var mac := ComputeResponseMac(x, session.value, data);
      session := Some(session.value.(counter := (session.value.counter + 1) % 0x1_0000));
      return Reply(data + mac, 0x91, 0x00);
    }

    method HandleGetVersionContinue() returns (r: Reply)
      modifies this
      ensures Matches(GetVersionContinue(old(S())), r, S())
    {
      if versionStep == 1 {
        versionStep := 2;
        return Reply(VERSION_PART2, 0x91, 0xAF);
      } else if versionStep == 2 {
        versionStep := 0;
        return Reply(VERSION_PART3, 0x91, 0x00);
      }
      return Panic;
    }

    method HandleGetFileSettings(a: seq<byte>) returns (r: Reply)
      modifies this
      ensures var o := if |a| == 7 then GetFileSettingsPlain(old(S()), a) else GetFileSettingsMac(x, old(S()), a);
        Matches(o, r, S())
    {
      if |a| == 7 {
        if !appSelected || a[..5] != [0x90, 0xF5, 0x00, 0x00, 0x01] || a[5] != 0x02 || a[6] != 0x00 {
          return Panic;
        }
        return Reply(settings, 0x91, 0x00);
      }
      if !appSelected || |a| != 15 || a[..5] != [0x90, 0xF5, 0x00, 0x00, 0x09] || a[5] != 0x02 || a[14] != 0x00 {
        return Panic;
      }
      if session.None? {
        return Panic;
      }
      var expected := ComputeCommandMac(x, session.value, 0xF5, [a[5]], []);
      if a[6..14] != expected {
        return Panic;
      }
      r := RespondWithMac(settings);
    }

    method HandleChangeFileSettings(a: seq<byte>) returns (r: Reply)
      modifies this
      ensures Matches(ChangeFileSettings(x, old(S()), a), r, S())
    {
      if !appSelected || |a| < 31 || a[0] != 0x90 || a[1] != 0x5F || a[5] != 0x02 || a[|a| - 1] != 0x00
         || session.None? {
        return Panic;
      }
      var body, mac := a[6..|a| - 9], a[|a| - 9..|a| - 1];
      var expected := ComputeCommandMac(x, session.value, 0x5F, [a[5]], body);
      if mac != expected || |body| % 16 != 0 {
        return Panic;
      }
      var iv := ComputeIv(x, session.value);
      var plain := DecryptBlocks(session.value.encKey, iv, body);
      var patchLen := Cbc.StripM2(plain);
      if patchLen.None? {
        return Panic;
      }
      var patch := plain[..patchLen.value];
      if |settings| < 7 || |patch| < 3 {
        return Panic;
      }
      settings := [settings[0]] + patch[..3] + settings[4..7] + patch[3..];
      r := RespondWithMac([]);
    }

    method HandleChangeKey(a: seq<byte>) returns (r: Reply)
      requires S().Valid()
      modifies this
      ensures Matches(ChangeKey(x, old(S()), a), r, S())
    {
      if !appSelected || |a| < 46 || a[0] != 0x90 || a[1] != 0xC4 || a[4] != 0x29 || a[|a| - 1] != 0x00
         || a[5] >= 5 || session.None? {
        return Panic;
      }
      var slot, cipher := a[5], a[6..38];
      var expected := ComputeCommandMac(x, session.value, 0xC4, [slot], cipher);
      if a[38..46] != expected {
        return Panic;
      }
      var iv := ComputeIv(x, session.value);
      var plain := DecryptBlocks(session.value.encKey, iv, cipher);
      r := Install(slot, plain);
    }

    /** The second half of a key change, with the decrypted body. */
    method Install(slot: nat, plain: seq<byte>) returns (r: Reply)
      requires S().Valid() && session.Some? && slot < 5 && |plain| == 32
      modifies this
      ensures Matches(InstallKey(x, old(S()), slot, plain), r, S())
    {
      if slot == 0 {
        keys := keys[0 := plain[..16]];
        versions := versions[0 := plain[16]];
        session := None;
        return Reply([], 0x91, 0x00);
      }
      var newKey := Unmask(plain[..16], keys[slot]);
      keys := keys[slot := newKey];
      versions := versions[slot := plain[16]];
      r := RespondWithMac([]);
    }

    /** The byte-by-byte unmasking loop of the key change. */
    method Unmask(masked: Block, oldKey: Block) returns (newKey: Block)
      ensures newKey == Xor(masked, oldKey)
    {
      var out := ZERO_BLOCK;
      for i := 0 to 16
        invariant |out| == 16
        invariant forall k :: 0 <= k < i ==> out[k] == XorByte(masked[k], oldKey[k])
      {
        out := out[i := XorByte(masked[i], oldKey[i])];
      }
      return out;
    }

    method HandleGetKeyVersion(a: seq<byte>) returns (r: Reply)
      requires S().Valid()
      modifies this
      ensures Matches(GetKeyVersion(x, old(S()), a), r, S())
    {
      if !appSelected || |a| != 15 || a[..5] != [0x90, 0x64, 0x00, 0x00, 0x09] || a[14] != 0x00 || session.None? {
        return Panic;
      }
      var expected := ComputeCommandMac(x, session.value, 0x64, [a[5]], []);
      if a[6..14] != expected || a[5] >= 5 {
        return Panic;
      }
      r := RespondWithMac([versions[a[5]]]);
    }

    method CountPlain()
      modifies this`session
      ensures S() == Counted(old(S()))
    {
      if session.Some? {
        session := Some(session.value.(counter := (session.value.counter + 1) % 0x1_0000));
      }
    }

    method HandleReadData(a: seq<byte>) returns (r: Reply)
      modifies this
      ensures Matches(ReadData(old(S()), a), r, S())
    {
      if !appSelected || |a| < 12 || a[..5] != [0x90, 0xAD, 0x00, 0x00, 0x07] || a[|a| - 1] != 0x00 || a[5] != 0x02 {
        return Panic;
      }
      var start, length := FromLe24(a[6], a[7], a[8]), FromLe24(a[9], a[10], a[11]);
      var end := if length == 0 then |ndef| else start + length;
      var stop := if end < |ndef| then end else |ndef|;
      if start > stop {
        return Panic;
      }
      var data := ndef[start..stop];
      CountPlain();
      return Reply(data, 0x91, 0x00);
    }

    /** Grows the file with zeros where needed and overwrites it from `offset` on. */
    method StoreData(offset: nat, data: seq<byte>)
      modifies this`ndef
      ensures ndef == NdefFile.Write(old(ndef), offset, data)
    {
      if |ndef| < offset + |data| {
        ndef := ndef + Zeros(offset + |data| - |ndef|);
      }
      ndef := ndef[..offset] + data + ndef[offset + |data|..];
    }

    method HandleWriteData(a: seq<byte>) returns (r: Reply)
      modifies this
      ensures Matches(WriteData(old(S()), a), r, S())
    {
      if !appSelected || |a| < 12 || a[0] != 0x90 || a[1] != 0x8D || a[5] != 0x02 || a[|a| - 1] != 0x00 {
        return Panic;
      }
      var offset, len := FromLe24(a[6], a[7], a[8]), FromLe24(a[9], a[10], a[11]);
      if |a| < 12 + len {
        return Panic;
      }
      var data := a[12..12 + len];
      StoreData(offset, data);
      CountPlain();
      return Reply([], 0x91, 0x00);
    }

    method HandleIsoReadBinary(a: seq<byte>) returns (r: Reply)
      ensures Matches(IsoReadBinary(S(), a), r, S())
    {
      if !appSelected || !efSelected || |a| != 5 {
        return Panic;
      }
      if a[2] >= 0x80 {
        return Reply([], 0x6A, 0x82);
      }
      var start := FromBe16(a[2], a[3]);
      var want: nat := if a[4] == 0 then 256 else a[4];
      var available := if start <= |ndef| then |ndef| - start else 0;
      var take := if want <= available then want else available;
      var data := if take > 0 then ndef[start..start + take] else [];
      return Reply(data, 0x90, 0x00);
    }

    method TransmitNative(a: seq<byte>) returns (r: Reply)
      requires S().Valid() && |a| >= 1 && a[0] == 0x90
      modifies this
      ensures Matches(Native(x, old(S()), a), r, S())
    {
      if |a| < 2 {
        r := Panic;
      } else if a[1] == 0x71 {
        r := HandleAuthPart1(a);
      } else if a[1] == 0xAF {
        if pending.Some? {
          r := HandleAuthPart2(a);
        } else {
          r := HandleGetVersionContinue();
        }
      } else if a[1] == 0x60 {
        versionStep := 1;
        r := Reply(VERSION_PART1, 0x91, 0xAF);
      } else if |a| >= 6 && a[1] == 0xF5 {
        r := HandleGetFileSettings(a);
      } else if a[1] == 0x5F {
        r := HandleChangeFileSettings(a);
      } else if a[1] == 0xC4 {
        r := HandleChangeKey(a);
      } else if a[1] == 0x64 {
        r := HandleGetKeyVersion(a);
      } else if a[1] == 0xAD {
        r := HandleReadData(a);
      } else if a[1] == 0x8D {
        r := HandleWriteData(a);
      } else {
        r := Panic;
      }
    }

    /** SELECT forms other than the two the workflows use. */
    method HandleIsoSelect(a: seq<byte>) returns (r: Reply)
      requires |a| >= 4
      ensures Matches(IsoSelect(S(), a), r, S())
    {
      if |a| == 4 && a[2] == 0x00 && a[3] == 0x00 {
        return Reply([], 0x90, 0x00);
      }
      if |a| == 4 {
        return Reply([], 0x67, 0x00);
      }
      var data := a[5..];
      if |data| != a[4] {
        return Reply([], 0x67, 0x00);
      }
      if |data| < 2 {
        return Reply([], 0x6A, 0x82);
      }
      if a[3] % 16 == 0x0C {
        var fid: nat := 256 * (data[0] as int) + data[1];
        if fid == 0x3F00 || fid == 0xE103 || fid == 0xE104 {
          return Reply([], 0x90, 0x00);
        }
      }
      return Reply([], 0x6A, 0x82);
    }

    method TransmitIso(a: seq<byte>) returns (r: Reply)
      requires |a| >= 1 && a[0] == 0x00
      modifies this
      ensures Matches(Iso(old(S()), a), r, S())
    {
      if a == DF_SELECT {
        appSelected, efSelected := true, false;
        r := Reply([], 0x90, 0x00);
      } else if a == EF_SELECT {
        if !appSelected {
          return Panic;
        }
        efSelected := true;
        r := Reply([], 0x90, 0x00);
      } else if |a| >= 2 && a[1] == 0xD6 {
        if !appSelected || !efSelected || |a| < 5 {
          return Panic;
        }
        ndef := a[5..];
        r := Reply([], 0x90, 0x00);
      } else if |a| >= 2 && a[1] == 0xB0 {
        r := HandleIsoReadBinary(a);
      } else if |a| < 4 {
        r := Reply([], 0x67, 0x00);
      } else if a[1] == 0xA4 {
        r := HandleIsoSelect(a);
      } else {
        r := Reply([], 0x6D, 0x00);
      }
    }

    /** One APDU in, one response out, exactly as specified. */
    method Transmit(a: seq<byte>) returns (r: Reply)
      requires S().Valid()
      modifies this
      ensures Matches(Step(x, old(S()), a), r, S())
    {
      if a == [] {
        r := Panic;
      } else if a[0] == 0x90 {
        r := TransmitNative(a);
      } else if a[0] == 0x00 {
        r := TransmitIso(a);
      } else if |a| >= 4 && a[0] == 0xFF && a[1] == 0xCA {
        r := Reply(UID, 0x90, 0x00);
      } else if |a| >= 2 && a[0] == 0xFF && a[1] == 0xA4 {
        r := Reply([], 0x63, 0x00);
      } else {
        r := Reply([], 0x67, 0x00);
      }
    }
  }
}
