/**
 The client of `Lockstep` as a program: it talks to the card object through its transport and keeps its
 own session. Over every allowed run from a new card it receives the plain device's answers.
 */
module Client {
  import opened Basics
  import opened Bytes
  import opened CardSpec
  import opened Lockstep
  import Card = MockTransport
  import Cbc

  /** A new card and a plain device with the same contents are in lockstep. */
  lemma FreshInLockstep(keys: seq<Block>, versions: seq<byte>, ndef: seq<byte>, settings: seq<byte>)
    requires |keys| == 5 && |versions| == 5
    ensures InLockstep(State(keys, versions, ndef, settings, false, false, None, None, 0), None,
                       NewDevice(keys, versions, ndef, settings))
  {
  }

  function NewDevice(keys: seq<Block>, versions: seq<byte>, ndef: seq<byte>, settings: seq<byte>): (p: Plain) {
    Plain(keys, versions, ndef, settings, false, false, None)
  }

  /** What an exchange left behind is what the pure client would have. */
  predicate Agrees(e: Exchange, ok: bool, card: State, session: Option<Session>, answer: seq<byte>) {
    (ok <==> e.Exchanged?) && (ok ==> e == Exchanged(card, session, answer))
  }

  class Client {
    const card: Card.MockTransport
    var session: Option<Session>

    constructor (card: Card.MockTransport)
      ensures this.card == card && session == None
    {
      this.card := card;
      session := None;
    }

    /** One APDU that must be answered with the given status. */
    method SendPlainly(apdu: seq<byte>, sw1: byte, sw2: byte) returns (ok: bool, answer: seq<byte>)
      requires card.S().Valid()
      modifies card
      ensures Agrees(Plainly(card.x, old(card.S()), session, apdu, sw1, sw2), ok, card.S(), session, answer)
      ensures ok ==> card.S().Valid()
    {
      var r := card.Transmit(apdu);
      if r.Panic? || r.sw1 != sw1 || r.sw2 != sw2 {
        return false, [];
      }
      return true, r.data;
    }

    /** One APDU whose answer must carry the MAC of this session, which then counts it. */
    method SendSecurely(apdu: seq<byte>) returns (ok: bool, answer: seq<byte>)
      requires card.S().Valid() && session.Some?
      modifies card, this
      ensures Agrees(Securely(card.x, old(card.S()), old(session).value, apdu), ok, card.S(), session, answer)
    {
      var r := card.Transmit(apdu);
      if r.Panic? || r.sw1 != 0x91 || r.sw2 != 0x00 || |r.data| < 8 {
        return false, [];
      }
      var data, mac := r.data[..|r.data| - 8], r.data[|r.data| - 8..];
      if mac != ResponseMac(card.x, session.value, data) {
        return false, [];
      }
      session := Some(Advance(session.value));
      return true, data;
    }

    method Authenticate(slot: byte, key: Block, rndA: Block, caps: seq<byte>) returns (ok: bool, answer: seq<byte>)
      requires card.S().Valid() && |caps| <= 250
      modifies card, this
      ensures Agrees(Handshake(card.x, old(card.S()), old(session), slot, key, rndA, caps), ok, card.S(), session,
                     answer)
    {
      var started, challenge := SendPlainly(AuthApdu(slot, caps), 0x91, 0xAF);
      if !started || |challenge| != 16 {
        return false, [];
      }
      var finished, proof := SendPlainly(AuthReplyApdu(ClientAnswer(card.x, key, rndA, challenge)), 0x91, 0x00);
      if !finished || |proof| != 32 {
        return false, [];
      }
      var s := ClientSession(card.x, key, rndA, challenge, proof);
      if s.None? {
        return false, [];
      }
      session := s;
      return true, [];
    }

    method AuthenticateWrongly(slot: byte, payload: seq<byte>) returns (ok: bool, answer: seq<byte>)
      requires card.S().Valid()
      modifies card
      ensures Agrees(RejectedHandshake(card.x, old(card.S()), session, slot, payload), ok, card.S(), session, answer)
    {
      var started, _ := SendPlainly(AuthApdu(slot, []), 0x91, 0xAF);
      if !started {
        return false, [];
      }
      ok, answer := SendPlainly(AuthReplyApdu(payload), 0x91, 0xAE);
    }

    method ReadVersion() returns (ok: bool, answer: seq<byte>)
      requires card.S().Valid()
      modifies card
      ensures Agrees(VersionExchange(card.x, old(card.S()), session), ok, card.S(), session, answer)
    {
      var ok1, part1 := SendPlainly([0x90, 0x60, 0x00, 0x00, 0x00], 0x91, 0xAF);
      if !ok1 {
        return false, [];
      }
      var ok2, part2 := SendPlainly([0x90, 0xAF, 0x00, 0x00, 0x00], 0x91, 0xAF);
      if !ok2 {
        return false, [];
      }
      var ok3, part3 := SendPlainly([0x90, 0xAF, 0x00, 0x00, 0x00], 0x91, 0x00);
      return ok3, part1 + part2 + part3;
    }

    /** A native read or write: answered plainly, and counted if a session is open. */
    method SendCounted(apdu: seq<byte>) returns (ok: bool, answer: seq<byte>)
      requires card.S().Valid()
      modifies card, this
      ensures var e := Plainly(card.x, old(card.S()), old(session), apdu, 0x91, 0x00);
        && (ok <==> e.Exchanged?)
        && (ok ==> card.S() == e.card && session == Count(old(session)) && answer == e.answer)
    {
      ok, answer := SendPlainly(apdu, 0x91, 0x00);
      if ok {
        session := Count(session);
      }
    }

    method ChangeKey(slot: nat, newKey: Block, oldKey: Block, version: byte, crc: seq<byte>)
      returns (ok: bool, answer: seq<byte>)
      requires card.S().Valid() && session.Some? && slot < 5 && |crc| == 4
      modifies card, this
      ensures var s := old(session).value;
        var apdu := CipherApdu(card.x, s, 0xC4, slot, KeyPlaintext(slot, newKey, oldKey, version, crc));
        if slot == 0
        then
          var e := Plainly(card.x, old(card.S()), old(session), apdu, 0x91, 0x00);
          (ok <==> e.Exchanged?) && (ok ==> e == Exchanged(card.S(), old(session), answer) && session.None?)
        else Agrees(Securely(card.x, old(card.S()), s, apdu), ok, card.S(), session, answer)
    {
      var apdu := CipherApdu(card.x, session.value, 0xC4, slot, KeyPlaintext(slot, newKey, oldKey, version, crc));
      if slot == 0 {
        ok, answer := SendPlainly(apdu, 0x91, 0x00);
        session := None;
      } else {
        ok, answer := SendSecurely(apdu);
      }
    }

    /** A command that selects, authenticates or asks for the version. */
    method PerformAccess(c: Command, ghost p: Plain) returns (ok: bool, answer: seq<byte>)
      requires card.S().Valid() && |p.keys| == 5 && Allowed(card.x, p, c) && (session.Some? <==> p.counted.Some?)
      requires c.SelectApp? || c.SelectFile? || c.Authenticate? || c.RejectedAuthentication? || c.GetVersion?
      modifies card, this
      ensures Agrees(Send(card.x, old(card.S()), old(session), p, c), ok, card.S(), session, answer)
    {
      match c
      case SelectApp => ok, answer := SendPlainly(DF_SELECT, 0x90, 0x00);
      case SelectFile => ok, answer := SendPlainly(EF_SELECT, 0x90, 0x00);
      case Authenticate(slot, key, rndA, caps) => ok, answer := Authenticate(slot, key, rndA, caps);
      case RejectedAuthentication(slot, payload) => ok, answer := AuthenticateWrongly(slot, payload);
      case GetVersion => ok, answer := ReadVersion();
    }

    /** A command under the MAC of the session. */
    method PerformSecurely(c: Command, ghost p: Plain) returns (ok: bool, answer: seq<byte>)
      requires card.S().Valid() && |p.keys| == 5 && Allowed(card.x, p, c) && (session.Some? <==> p.counted.Some?)
      requires c.ReadSettings? || c.ChangeSettings? || c.ChangeKey? || c.ReadKeyVersion?
      modifies card, this
      ensures Agrees(Send(card.x, old(card.S()), old(session), p, c), ok, card.S(), session, answer)
    {
      match c
      case ReadSettings => ok, answer := SendSecurely(MacApdu(card.x, session.value, 0xF5, 0x02));
      case ChangeSettings(patch) =>
        ok, answer := SendSecurely(CipherApdu(card.x, session.value, 0x5F, 0x02, Cbc.PadM2(patch)));
      case ChangeKey(slot, newKey, oldKey, version, crc) => ok, answer := ChangeKey(slot, newKey, oldKey, version, crc);
      case ReadKeyVersion(slot) => ok, answer := SendSecurely(MacApdu(card.x, session.value, 0x64, slot));
    }

    /** One command, as the pure client sends it. */
    method Perform(c: Command, ghost p: Plain) returns (ok: bool, answer: seq<byte>)
      requires card.S().Valid() && |p.keys| == 5 && Allowed(card.x, p, c) && (session.Some? <==> p.counted.Some?)
      modifies card, this
      ensures Agrees(Send(card.x, old(card.S()), old(session), p, c), ok, card.S(), session, answer)
    {
      if c.SelectApp? || c.SelectFile? || c.Authenticate? || c.RejectedAuthentication? || c.GetVersion? {
        ok, answer := PerformAccess(c, p);
        return;
      } else if c.ReadSettings? || c.ChangeSettings? || c.ChangeKey? || c.ReadKeyVersion? {
        ok, answer := PerformSecurely(c, p);
        return;
      }
      match c
      case ReadSettingsPlain => ok, answer := SendPlainly([0x90, 0xF5, 0x00, 0x00, 0x01, 0x02, 0x00], 0x91, 0x00);
      case Read(offset, length) =>
        ok, answer := SendCounted([0x90, 0xAD, 0x00, 0x00, 0x07, 0x02] + Le24(offset) + Le24(length) + [0x00]);
      case Write(offset, data) =>
        var header := [0x90, 0x8D, 0x00, 0x00, 7 + |data|, 0x02];
        ok, answer := SendCounted(header + Le24(offset) + Le24(|data|) + data + [0x00]);
      case IsoRead(offset, want) =>
        ok, answer := SendPlainly([0x00, 0xB0, offset / 256, offset % 256, want % 256], 0x90, 0x00);
      case IsoUpdate(data) => ok, answer := SendPlainly([0x00, 0xD6, 0x00, 0x00, |data|] + data, 0x90, 0x00);
    }

    /** In lockstep a command succeeds with the plain device's answer, and the lockstep survives. */
    method PerformInLockstep(c: Command, ghost p: Plain) returns (answer: seq<byte>)
      requires InLockstep(card.S(), session, p) && Allowed(card.x, p, c)
      modifies card, this
      ensures answer == PlainAnswer(card.x, p, c) && InLockstep(card.S(), session, PlainNext(card.x, p, c))
    {
      LockstepStep(card.x, card.S(), session, p, c);
      var ok;
      ok, answer := Perform(c, p);
    }
  }

  lemma RunStep(x: Suite, p: Plain, cs: seq<Command>, i: nat, done: seq<seq<byte>>)
    requires i < |cs| && |p.keys| == 5 && |p.versions| == 5 && RunAllowed(x, p, cs[i..])
    ensures Allowed(x, p, cs[i])
    ensures RunAllowed(x, PlainNext(x, p, cs[i]), cs[i + 1..])
    ensures PlainRun(x, p, cs[i..]) == PlainRun(x, PlainNext(x, p, cs[i]), cs[i + 1..])
    ensures done + PlainAnswers(x, p, cs[i..])
         == (done + [PlainAnswer(x, p, cs[i])]) + PlainAnswers(x, PlainNext(x, p, cs[i]), cs[i + 1..])
  {
    assert cs[i..][1..] == cs[i + 1..];
    Associates(done, [PlainAnswer(x, p, cs[i])], PlainAnswers(x, PlainNext(x, p, cs[i]), cs[i + 1..]));
  }

  /**
   A client at a new card, through any allowed run: the answers of the plain device, and both in lockstep at
   the end.
   */
  method DriveNewCard(x: Suite, keys: seq<Block>, versions: seq<byte>, ndef: seq<byte>, settings: seq<byte>,
                      cs: seq<Command>)
    returns (client: Client, answers: seq<seq<byte>>)
    requires |keys| == 5 && |versions| == 5 && RunAllowed(x, NewDevice(keys, versions, ndef, settings), cs)
    ensures answers == PlainAnswers(x, NewDevice(keys, versions, ndef, settings), cs)
    ensures InLockstep(client.card.S(), client.session, PlainRun(x, NewDevice(keys, versions, ndef, settings), cs))
  {
    var card := new Card.MockTransport(x, keys, versions, ndef, settings);
    client := new Client(card);
    FreshInLockstep(keys, versions, ndef, settings);
    ghost var p := NewDevice(keys, versions, ndef, settings);
    answers := [];
    assert cs[0..] == cs;
    for i := 0 to |cs|
      invariant fresh(card) && fresh(client) && client.card == card && card.x == x
      invariant InLockstep(card.S(), client.session, p) && RunAllowed(x, p, cs[i..])
      invariant PlainRun(x, p, cs[i..]) == PlainRun(x, NewDevice(keys, versions, ndef, settings), cs)
      invariant answers + PlainAnswers(x, p, cs[i..]) == PlainAnswers(x, NewDevice(keys, versions, ndef, settings), cs)
    {
      RunStep(x, p, cs, i, answers);
      var answer := client.PerformInLockstep(cs[i], p);
      p := PlainNext(x, p, cs[i]);
      answers := answers + [answer];
    }
  }
}
