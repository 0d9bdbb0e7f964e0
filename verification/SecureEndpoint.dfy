/** The C routines of the channel, with their session counters, tied to the frames of SecureChannel. */
module SecureEndpoint {
  import opened Wrappers
  import opened BigEndian
  import opened SecureChannel
  import opened Protocol

  const SECURE_AAD_SIZE := HASH_LEN + 22

  /** The ideal cipher: it remembers every encryption and decrypts only what it has produced. */
  class IdealAead {
    const enc: Cipher
    var log: seq<Entry>

    constructor (enc: Cipher)
      ensures this.enc == enc && log == []
    {
      this.enc := enc;
      log := [];
    }

    method EncryptEntry(e: Entry) returns (c: seq<byte>)
      ensures c == Encrypt(enc, e)
    {
      c := enc(e.key, e.nonce, e.aad, e.plain);
    }

    method Decrypt(key: seq<byte>, nonce: seq<byte>, aad: seq<byte>, c: seq<byte>) returns (r: Option<seq<byte>>)
      ensures r == Open(log, enc, key, nonce, aad, c)
    {
      var i := 0;
      while i < |log|
        invariant i <= |log|
        invariant Open(log, enc, key, nonce, aad, c) == Open(log[i..], enc, key, nonce, aad, c)
      {
        var e := log[i];
        if e.key == key && e.nonce == nonce && e.aad == aad && Encrypt(enc, e) == c {
          return Some(e.plain);
        }
        assert log[i..][1..] == log[i + 1..];
        i := i + 1;
      }
      r := None;
    }
  }

  method MakeNonce(counter: nat) returns (nonce: array<byte>)
    ensures fresh(nonce) && nonce[..] == Nonce(counter)
    ensures counter <= U64_MAX ==> IsNonce(nonce[..], counter)
  {
    nonce := new byte[NPUB](_ => 0);
    StoreBe(nonce, NPUB - 8, 8, counter);
    assert nonce[..] == [0, 0, 0, 0] + Be(counter, 8) + [];
    NonceLayout(nonce[..], counter);
  }

  /** Fails on a non-zero leading byte, otherwise loads the counter. */
  method ParseNonce(nonce: seq<byte>) returns (counter: Option<nat>)
    requires |nonce| == NPUB
    ensures counter == NonceCounter(nonce)
    ensures counter == if nonce[0] == nonce[1] == nonce[2] == nonce[3] == 0 then Some(Read8(nonce, 4)) else None
  {
    NonceLayout(nonce, if NonceCounter(nonce).Some? then NonceCounter(nonce).value else Read8(nonce, 4));
    hide FromBe, Read8;
    for i := 0 to NPUB - 8
      invariant forall k :: 0 <= k < i ==> nonce[k] == 0
    {
      if nonce[i] != 0 {
        assert nonce[..4][i] == nonce[i];
        return None;
      }
    }
    assert nonce[..4] == [0, 0, 0, 0];
    var v := LoadBe(nonce[NPUB - 8..]);
    counter := Some(v);
  }

  /** Fills the associated data field by field at a running offset. */
  method BuildAad(half: Half, tag: int32, len: nat, counter: nat) returns (aad: array<byte>)
    requires half.Valid()
    ensures fresh(aad) && aad[..] == Aad(half, tag, len, counter)
    ensures len <= U64_MAX && counter <= U64_MAX ==> IsAad(aad[..], half, tag, len, counter)
  {
    hide Be, IsAad;
    aad := new byte[SECURE_AAD_SIZE](_ => 0);
    forall k | 0 <= k < HASH_LEN { aad[k] := half.binding[k]; }
    var offset := HASH_LEN;
    aad[offset] := SECURE_PROTOCOL_VERSION;
    aad[offset + 1] := half.dir;
    offset := offset + 2;
    ghost var head := half.binding + [SECURE_PROTOCOL_VERSION, half.dir];
    assert aad[..offset] == head;
    StoreBe(aad, offset, 4, U32(tag));
    offset := offset + 4;
    head := head + Be(U32(tag), 4);
    assert aad[..offset] == head;
    StoreBe(aad, offset, 8, len);
    offset := offset + 8;
    head := head + Be(len, 8);
    assert aad[..offset] == head;
    StoreBe(aad, offset, 8, counter);
    assert aad[..] == head + Be(counter, 8) + [];
    if len <= U64_MAX && counter <= U64_MAX {
      AadLayout(aad[..], half, tag, len, counter);
    }
  }

  /** One end of a session: its two keys and its two counters. */
  class Endpoint {
    const tx: Half
    const rx: Half
    var sendCtr: nat
    var recvCtr: nat

    ghost predicate Valid()
      reads this
    {
      tx.Valid() && rx.Valid() && sendCtr <= U64_MAX && recvCtr <= U64_MAX
    }

    constructor (tx: Half, rx: Half)
      requires tx.Valid() && rx.Valid()
      ensures Valid() && this.tx == tx && this.rx == rx && sendCtr == recvCtr == 0
    {
      this.tx, this.rx := tx, rx;
      sendCtr, recvCtr := 0, 0;
    }

    /** `secure_send` for small messages and `send_bulk` for bulk ones. */
    method Send(aead: IdealAead, kind: Kind, msg: Msg) returns (out: SendOutcome)
      requires Valid()
      modifies this`sendCtr, aead`log
      ensures Valid()
      ensures out == SendFrame(aead.enc, tx, old(sendCtr), kind, msg)
      ensures out.Abort? ==> sendCtr == old(sendCtr) && aead.log == old(aead.log)
      ensures out.Sent? ==> sendCtr == old(sendCtr) + 1 == Next(old(sendCtr)) && aead.log == old(aead.log) + [out.entry]
    {
      hide Be, Aad, Nonce, IsAad, IsNonce;
      if |msg.plain| > MaxPlain(kind) {
        return Abort;
      }
      if sendCtr == U64_MAX {
        return Abort;
      }
      var counter := sendCtr;
      var nonce := MakeNonce(counter);
      var aad := BuildAad(tx, msg.tag, |msg.plain|, counter);
      var e := Entry(tx.key, nonce[..], aad[..], msg.plain);
      var c := aead.EncryptEntry(e);
      if |c| != |msg.plain| + ABYTES {
        return Abort;
      }
      aead.log := aead.log + [e];
      sendCtr := counter + 1;
      out := Sent(nonce[..] + c, e);
    }

    /** `secure_recv` for small messages and `recv_bulk` for bulk ones. */
    method Receive(aead: IdealAead, kind: Kind, tag: int32, len: int, wire: seq<byte>) returns (out: RecvOutcome)
      requires Valid()
      modifies this`recvCtr
      ensures Valid()
      ensures out == RecvFrame(aead.log, aead.enc, rx, old(recvCtr), kind, tag, len, wire)
      ensures recvCtr == if out.Accepted? then Next(old(recvCtr)) else old(recvCtr)
      ensures out.Accepted? ==> recvCtr == if old(recvCtr) == 18446744073709551615 then 0 else old(recvCtr) + 1
    {
      hide Be, FromBe, Aad, IsAad, IsNonce, Read8;
      if len < 0 || len > MaxPlain(kind) {
        return Refused;
      }
      if |wire| != NPUB + len + ABYTES {
        return Died;
      }
      var received := ParseNonce(wire[..NPUB]);
      if received != Some(recvCtr) {
        return Rejected;
      }
      var aad := BuildAad(rx, tag, len, received.value);
      var r := aead.Decrypt(rx.key, wire[..NPUB], aad[..], wire[NPUB..]);
      if r.None? || |r.value| != len {
        return Rejected;
      }
      recvCtr := Next(received.value);
      out := Accepted(r.value);
    }
  }
}
