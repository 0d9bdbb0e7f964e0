/**
 The sequenced AEAD channel between the central node and a worker.

 Small and bulk messages share one counter per direction. The cipher is ideal: decryption
 succeeds exactly on ciphertexts that an encryption under the same key, nonce and associated
 data has produced, which `log` records. The network is unrestricted: what a receive call is
 handed is an arbitrary byte string, so frames may be dropped, repeated, reordered or invented.
 */
module SecureChannel {
  import opened Wrappers
  import opened BigEndian
  import opened Protocol

  type int32 = x: int | -0x8000_0000 <= x < 0x8000_0000

  const NPUB := 12
  const ABYTES := 16
  const HASH_LEN := 32
  const SECURE_MAX_PLAIN := 256
  const SECURE_PROTOCOL_VERSION: byte := 2
  const CENTRAL_TO_WORKER: byte := 1
  const WORKER_TO_CENTRAL: byte := 2

  /** Which of the two send/receive pairs is called. */
  datatype Kind = Small | Bulk

  /** One direction of one worker's session: the key, the transcript hash and the direction byte. */
  datatype Half = Half(key: seq<byte>, binding: seq<byte>, dir: byte) {
    predicate Valid() { |binding| == HASH_LEN }
  }

  datatype Msg = Msg(tag: int32, plain: seq<byte>)

  /** One encryption that took place. */
  datatype Entry = Entry(key: seq<byte>, nonce: seq<byte>, aad: seq<byte>, plain: seq<byte>)

  /** The encryption function: key, nonce, associated data, plaintext to ciphertext. */
  type Cipher = (seq<byte>, seq<byte>, seq<byte>, seq<byte>) -> seq<byte>

  datatype SendOutcome = Abort | Sent(wire: seq<byte>, entry: Entry)

  /** `Refused`: size argument out of range. `Died`: wrong byte count. `Rejected`: checks failed. */
  datatype RecvOutcome = Refused | Died | Rejected | Accepted(plain: seq<byte>)

  function MaxPlain(kind: Kind): nat {
    if kind.Small? then SECURE_MAX_PLAIN else INT_MAX - NPUB - ABYTES
  }

  /** Conversion of a tag to `uint32_t`. */
  function U32(tag: int32): nat {
    if tag < 0 then tag + 0x1_0000_0000 else tag
  }

  /** A counter increment in `uint64_t` arithmetic. */
  function Next(ctr: nat): nat {
    (ctr + 1) % (U64_MAX + 1)
  }

  function Nonce(ctr: nat): (n: seq<byte>)
    ensures |n| == NPUB
  {
    [0, 0, 0, 0] + Be(ctr, 8)
  }

  /** The counter of a nonce whose four leading bytes are zero. */
  function NonceCounter(nonce: seq<byte>): Option<nat>
    requires |nonce| == NPUB
  {
    if nonce[..4] == [0, 0, 0, 0] then Some(FromBe(nonce[4..])) else None
  }

  function Aad(half: Half, tag: int32, len: nat, ctr: nat): seq<byte> {
    half.binding + [SECURE_PROTOCOL_VERSION, half.dir] + Be(U32(tag), 4) + Be(len, 8) + Be(ctr, 8)
  }

  function EntryOf(half: Half, msg: Msg, ctr: nat): Entry {
    Entry(half.key, Nonce(ctr), Aad(half, msg.tag, |msg.plain|, ctr), msg.plain)
  }

  function Encrypt(enc: Cipher, e: Entry): seq<byte> {
    enc(e.key, e.nonce, e.aad, e.plain)
  }

  /** The ideal decryption: the plaintext of a logged encryption that produced `c`, if any. */
  function Open(log: seq<Entry>, enc: Cipher, key: seq<byte>, nonce: seq<byte>, aad: seq<byte>, c: seq<byte>)
    : (r: Option<seq<byte>>)
    ensures r.Some? ==> Entry(key, nonce, aad, r.value) in log && enc(key, nonce, aad, r.value) == c
    ensures r.None? ==> forall p :: Entry(key, nonce, aad, p) in log ==> enc(key, nonce, aad, p) != c
  {
    if log == [] then None
    else if log[0] == Entry(key, nonce, aad, log[0].plain) && Encrypt(enc, log[0]) == c then Some(log[0].plain)
    else Open(log[1..], enc, key, nonce, aad, c)
  }

  /** `secure_send` and `send_bulk`. */
  function SendFrame(enc: Cipher, half: Half, ctr: nat, kind: Kind, msg: Msg): SendOutcome {
    var e := EntryOf(half, msg, ctr);
    if |msg.plain| > MaxPlain(kind) then Abort
    else if ctr == U64_MAX then Abort
    else if |Encrypt(enc, e)| != |msg.plain| + ABYTES then Abort
    else Sent(e.nonce + Encrypt(enc, e), e)
  }

  /** `secure_recv` and `recv_bulk`. */
  function RecvFrame(log: seq<Entry>, enc: Cipher, half: Half, ctr: nat, kind: Kind, tag: int32, len: int,
                     wire: seq<byte>)
    : RecvOutcome
  {
    if len < 0 || len > MaxPlain(kind) then Refused
    else if |wire| != NPUB + len + ABYTES then Died
    else if NonceCounter(wire[..NPUB]) != Some(ctr) then Rejected
    else
      match Open(log, enc, half.key, wire[..NPUB], Aad(half, tag, len, ctr), wire[NPUB..])
      case None => Rejected
      case Some(p) => if |p| != len then Rejected else Accepted(p)
  }

  // ------------------------------------------------------------- encodings are injective

  lemma NonceRoundTrip(ctr: nat)
    requires ctr <= U64_MAX
    ensures NonceCounter(Nonce(ctr)) == Some(ctr)
  {
    Widths();
    FromBeOfBe(ctr, 8);
    assert Nonce(ctr)[..4] == [0, 0, 0, 0];
    assert Nonce(ctr)[4..] == Be(ctr, 8);
  }

  lemma NonceIsCanonical(nonce: seq<byte>)
    requires |nonce| == NPUB && NonceCounter(nonce).Some?
    ensures NonceCounter(nonce).value <= U64_MAX && Nonce(NonceCounter(nonce).value) == nonce
  {
    Widths();
    BeOfFromBe(nonce[4..]);
    assert nonce == nonce[..4] + nonce[4..];
  }

  lemma BeInjective(a: nat, b: nat, n: nat)
    requires a < Pow256(n) && b < Pow256(n) && Be(a, n) == Be(b, n)
    ensures a == b
  {
    FromBeOfBe(a, n);
    FromBeOfBe(b, n);
  }

  /** The counter stands in the last eight of the nonce's twelve bytes. */
  predicate IsNonce(s: seq<byte>, ctr: nat) {
    |s| == 12 && s[0] == s[1] == s[2] == s[3] == 0 && Read8(s, 4) == ctr
  }

  lemma NonceLayout(s: seq<byte>, ctr: nat)
    ensures ctr <= U64_MAX ==> (s == Nonce(ctr) <==> IsNonce(s, ctr))
    ensures |s| == NPUB ==> (NonceCounter(s) == Some(ctr) <==> IsNonce(s, ctr))
  {
    Widths();
    hide Pow256, Be, FromBe, Read8;
    if |s| == NPUB {
      assert s[4..12] == s[4..];
      ReadIsFromBe(s, 4);
      assert s[..4] == [s[0], s[1], s[2], s[3]];
      assert s == s[..4] + s[4..12];
      if s[4..12] == Be(ctr, 8) && ctr <= U64_MAX {
        ReadWritten(s, 4, ctr, 8);
      }
      if Read8(s, 4) == ctr {
        WrittenIfRead(s, 4, ctr, 8);
      }
    }
  }

  /** Transcript hash, version, direction, tag, length and counter, each in its place. */
  predicate IsAad(s: seq<byte>, half: Half, tag: int32, len: nat, ctr: nat) {
    && |s| == 54
    && s[..32] == half.binding
    && s[32] == 2 && s[33] == half.dir
    && Read4(s, 34) == (if tag < 0 then tag + 0x1_0000_0000 else tag)
    && Read8(s, 38) == len
    && Read8(s, 46) == ctr
  }

  lemma AadSlices(half: Half, tag: int32, len: nat, ctr: nat)
    requires half.Valid()
    ensures var s := Aad(half, tag, len, ctr);
            && |s| == 54 && s[..32] == half.binding && s[32] == SECURE_PROTOCOL_VERSION && s[33] == half.dir
            && s[34..38] == Be(U32(tag), 4) && s[38..46] == Be(len, 8) && s[46..54] == Be(ctr, 8)
  {
    hide Be;
  }

  lemma AadLayout(s: seq<byte>, half: Half, tag: int32, len: nat, ctr: nat)
    requires half.Valid() && len <= U64_MAX && ctr <= U64_MAX
    ensures s == Aad(half, tag, len, ctr) <==> IsAad(s, half, tag, len, ctr)
  {
    hide Aad, IsAad;
    if s == Aad(half, tag, len, ctr) {
      BuiltAad(s, half, tag, len, ctr);
    }
    if IsAad(s, half, tag, len, ctr) {
      ReadAad(s, half, tag, len, ctr);
    }
  }

  lemma BuiltAad(s: seq<byte>, half: Half, tag: int32, len: nat, ctr: nat)
    requires half.Valid() && len <= U64_MAX && ctr <= U64_MAX && s == Aad(half, tag, len, ctr)
    ensures IsAad(s, half, tag, len, ctr)
  {
    hide Be, Pow256, Read4, Read8, Aad;
    Widths();
    AadSlices(half, tag, len, ctr);
    ReadWritten(s, 34, U32(tag), 4);
    ReadWritten(s, 38, len, 8);
    ReadWritten(s, 46, ctr, 8);
  }

  lemma ReadAad(s: seq<byte>, half: Half, tag: int32, len: nat, ctr: nat)
    requires half.Valid() && IsAad(s, half, tag, len, ctr)
    ensures s == Aad(half, tag, len, ctr)
  {
    hide Be, Pow256, Read4, Read8;
    WrittenIfRead(s, 34, U32(tag), 4);
    WrittenIfRead(s, 38, len, 8);
    WrittenIfRead(s, 46, ctr, 8);
    SixFields(s);
  }

  lemma SixFields(s: seq<byte>)
    requires |s| == 54
    ensures s == s[..32] + [s[32], s[33]] + s[34..38] + s[38..46] + s[46..54]
  {
  }

  /** The associated data determines all it was built from: the session, the direction and the message's place. */
  lemma AadInjective(h: Half, tag: int32, len: nat, ctr: nat, h': Half, tag': int32, len': nat, ctr': nat)
    requires h.Valid() && len <= U64_MAX && ctr <= U64_MAX
    requires h'.Valid() && len' <= U64_MAX && ctr' <= U64_MAX
    requires Aad(h, tag, len, ctr) == Aad(h', tag', len', ctr')
    ensures h.binding == h'.binding && h.dir == h'.dir && tag == tag' && len == len' && ctr == ctr'
  {
    var s := Aad(h, tag, len, ctr);
    hide Aad, Read4, Read8;
    AadLayout(s, h, tag, len, ctr);
    AadLayout(s, h', tag', len', ctr');
  }

  // ----------------------------------------------------------- what one call stands for

  /** When a send succeeds, and the frame it then puts on the wire. */
  lemma SendIff(enc: Cipher, half: Half, ctr: nat, kind: Kind, msg: Msg)
    requires half.Valid() && ctr <= U64_MAX
    ensures var limit := if kind.Small? then 256 else 2147483647 - 28;
            var out := SendFrame(enc, half, ctr, kind, msg);
            && (out.Sent? <==>
                  && |msg.plain| <= limit && ctr != 18446744073709551615
                  && exists nonce, aad :: IsNonce(nonce, ctr) && IsAad(aad, half, msg.tag, |msg.plain|, ctr)
                                          && |enc(half.key, nonce, aad, msg.plain)| == |msg.plain| + 16)
            && (out.Sent? ==>
                  && |out.wire| == 28 + |msg.plain|
                  && IsNonce(out.wire[..12], ctr)
                  && out.entry.key == half.key && out.entry.nonce == out.wire[..12] && out.entry.plain == msg.plain
                  && IsAad(out.entry.aad, half, msg.tag, |msg.plain|, ctr)
                  && out.wire[12..] == enc(half.key, out.entry.nonce, out.entry.aad, msg.plain))
  {
    var limit := if kind.Small? then 256 else 2147483647 - 28;
    var e := EntryOf(half, msg, ctr);
    if |msg.plain| <= limit {
      NonceLayout(e.nonce, ctr);
      AadLayout(e.aad, half, msg.tag, |msg.plain|, ctr);
      hide IsNonce, IsAad, Nonce, Aad;
      forall nonce, aad | IsNonce(nonce, ctr) && IsAad(aad, half, msg.tag, |msg.plain|, ctr)
        ensures nonce == e.nonce && aad == e.aad
      {
        NonceLayout(nonce, ctr);
        AadLayout(aad, half, msg.tag, |msg.plain|, ctr);
      }
      var out := SendFrame(enc, half, ctr, kind, msg);
      if out.Sent? {
        assert out.wire[..12] == e.nonce && out.wire[12..] == Encrypt(enc, e);
      }
    }
  }

  /** When a receive gives up over its size argument or the byte count, and what it demands of what it accepts. */
  lemma ReceiveDemands(log: seq<Entry>, enc: Cipher, half: Half, ctr: nat, kind: Kind, tag: int32, len: int,
                       wire: seq<byte>)
    requires half.Valid() && ctr <= U64_MAX
    ensures var limit := if kind.Small? then 256 else 2147483647 - 28;
            var out := RecvFrame(log, enc, half, ctr, kind, tag, len, wire);
            && (out.Refused? <==> len < 0 || len > limit)
            && (out.Died? <==> 0 <= len <= limit && |wire| != 28 + len)
            && (out.Accepted? ==>
                  && 0 <= len <= limit && |wire| == 28 + len && |out.plain| == len
                  && IsNonce(wire[..12], ctr)
                  && exists aad :: IsAad(aad, half, tag, len, ctr)
                                   && Entry(half.key, wire[..12], aad, out.plain) in log
                                   && enc(half.key, wire[..12], aad, out.plain) == wire[12..])
  {
    var out := RecvFrame(log, enc, half, ctr, kind, tag, len, wire);
    if out.Accepted? {
      NonceLayout(wire[..12], ctr);
      AadLayout(Aad(half, tag, len, ctr), half, tag, len, ctr);
      hide IsNonce, IsAad, Aad;
    }
  }

  /** An encryption made for some session, direction and message. */
  ghost predicate Sealed(e: Entry, half: Half, msg: Msg, ctr: nat) {
    && half.Valid() && |msg.plain| <= U64_MAX && ctr <= U64_MAX
    && e.key == half.key && e.plain == msg.plain
    && IsNonce(e.nonce, ctr) && IsAad(e.aad, half, msg.tag, |msg.plain|, ctr)
  }

  /**
   * Whatever keys the sessions have, even one for all: a receive accepts only what was sealed for its own session, its
   * own direction and its own position, under the tag and with the length it asks for.
   */
  lemma AcceptedWasSealedForIt(log: seq<Entry>, enc: Cipher, half: Half, ctr: nat, kind: Kind, tag: int32, len: int,
                               wire: seq<byte>)
    requires half.Valid() && ctr <= U64_MAX
    requires forall e :: e in log ==> exists h, m, c :: Sealed(e, h, m, c)
    requires RecvFrame(log, enc, half, ctr, kind, tag, len, wire).Accepted?
    ensures var p := RecvFrame(log, enc, half, ctr, kind, tag, len, wire).plain;
            exists e, h :: e in log && Sealed(e, h, Msg(tag, p), ctr) && h.binding == half.binding && h.dir == half.dir
                           && h.key == half.key && enc(h.key, e.nonce, e.aad, p) == wire[12..]
  {
    var p := RecvFrame(log, enc, half, ctr, kind, tag, len, wire).plain;
    ReceiveDemands(log, enc, half, ctr, kind, tag, len, wire);
    hide RecvFrame, IsNonce, IsAad;
    var aad :| IsAad(aad, half, tag, len, ctr) && Entry(half.key, wire[..12], aad, p) in log
               && enc(half.key, wire[..12], aad, p) == wire[12..];
    var e := Entry(half.key, wire[..12], aad, p);
    var h, m, c :| Sealed(e, h, m, c);
    SameSeal(e, half, tag, len, ctr, h, m, c);
    assert m == Msg(tag, p);
  }

  lemma SameSeal(e: Entry, half: Half, tag: int32, len: nat, ctr: nat, h: Half, m: Msg, c: nat)
    requires half.Valid() && Sealed(e, h, m, c) && IsAad(e.aad, half, tag, len, ctr)
    ensures h.binding == half.binding && h.dir == half.dir && m.tag == tag && c == ctr
  {
    hide Read4, Read8;
  }

  /** So a frame sealed for another session or the other direction is rejected, under the same key and nonce too. */
  lemma ForeignFrameIsRejected(log: seq<Entry>, enc: Cipher, half: Half, ctr: nat, kind: Kind, tag: int32, len: int,
                               wire: seq<byte>, other: Half)
    requires half.Valid() && ctr <= U64_MAX && 12 <= |wire|
    requires other.binding != half.binding || other.dir != half.dir
    requires forall e :: e in log && e.key == half.key && e.nonce == wire[..12] ==>
               exists h, m, c :: Sealed(e, h, m, c) && h.binding == other.binding && h.dir == other.dir
    ensures !RecvFrame(log, enc, half, ctr, kind, tag, len, wire).Accepted?
  {
    ReceiveDemands(log, enc, half, ctr, kind, tag, len, wire);
    hide IsNonce, IsAad;
    if RecvFrame(log, enc, half, ctr, kind, tag, len, wire).Accepted? {
      var p := RecvFrame(log, enc, half, ctr, kind, tag, len, wire).plain;
      hide RecvFrame;
      var aad :| IsAad(aad, half, tag, len, ctr) && Entry(half.key, wire[..12], aad, p) in log
                 && enc(half.key, wire[..12], aad, p) == wire[12..];
      var e := Entry(half.key, wire[..12], aad, p);
      var h, m, c :| Sealed(e, h, m, c) && h.binding == other.binding && h.dir == other.dir;
      SameSeal(e, half, tag, len, ctr, h, m, c);
    }
  }

  // ------------------------------------------------------------------- the open network

  /** One directed link: both ends' counters, and the messages sent and accepted so far. */
  datatype Link = Link(half: Half, sendCtr: nat, recvCtr: nat, sent: seq<Msg>, accepted: seq<Msg>)

  datatype World = World(log: seq<Entry>, links: seq<Link>)

  datatype Event =
    | Send(link: nat, kind: Kind, msg: Msg)
    | Deliver(link: nat, kind: Kind, tag: int32, len: int, wire: seq<byte>)

  function Exec(enc: Cipher, w: World, e: Event): World {
    if e.link >= |w.links| then w
    else
      var l := w.links[e.link];
      match e
      case Send(i, kind, msg) =>
        (match SendFrame(enc, l.half, l.sendCtr, kind, msg)
         case Abort => w
         case Sent(_, entry) =>
           World(w.log + [entry], w.links[i := l.(sendCtr := Next(l.sendCtr), sent := l.sent + [msg])]))
      case Deliver(i, kind, tag, len, wire) =>
        (match RecvFrame(w.log, enc, l.half, l.recvCtr, kind, tag, len, wire)
         case Accepted(p) =>
           w.(links := w.links[i := l.(recvCtr := Next(l.recvCtr), accepted := l.accepted + [Msg(tag, p)])])
         case _ => w)
  }

  function Run(enc: Cipher, w: World, events: seq<Event>): World {
    if events == [] then w
    else Exec(enc, Run(enc, w, events[..|events| - 1]), events[|events| - 1])
  }

  ghost predicate DistinctKeys(links: seq<Link>) {
    forall i, j :: 0 <= i < j < |links| ==> links[i].half.key != links[j].half.key
  }

  /** Sessions as they stand after enrolment: nothing encrypted, sent or accepted. */
  ghost predicate Fresh(w: World) {
    && w.log == []
    && DistinctKeys(w.links)
    && forall i :: 0 <= i < |w.links| ==>
         var l := w.links[i];
         l.half.Valid() && l.sendCtr == l.recvCtr == 0 && l.sent == l.accepted == []
  }

  ghost predicate LinkOk(l: Link) {
    && l.half.Valid()
    && |l.sent| == l.sendCtr <= U64_MAX
    && |l.accepted| == l.recvCtr
    && l.accepted <= l.sent
    && forall j :: 0 <= j < |l.sent| ==> |l.sent[j].plain| <= MaxPlain(Bulk)
  }

  /** Some link's `j`-th message accounts for this encryption. */
  ghost predicate Accounted(links: seq<Link>, e: Entry) {
    exists i, j :: 0 <= i < |links| && 0 <= j < |links[i].sent| && e == EntryOf(links[i].half, links[i].sent[j], j)
  }

  ghost predicate NoncesUnique(log: seq<Entry>) {
    forall a, b :: 0 <= a < b < |log| && log[a].key == log[b].key ==> log[a].nonce != log[b].nonce
  }

  ghost predicate LogComplete(w: World) {
    forall i, j :: 0 <= i < |w.links| && 0 <= j < |w.links[i].sent| ==>
      EntryOf(w.links[i].half, w.links[i].sent[j], j) in w.log
  }

  ghost predicate Inv(w: World) {
    && DistinctKeys(w.links)
    && (forall i :: 0 <= i < |w.links| ==> LinkOk(w.links[i]))
    && (forall e :: e in w.log ==> Accounted(w.links, e))
    && LogComplete(w)
    && NoncesUnique(w.log)
  }

  /** An encryption logged under a link's key is one of that link's messages at its own index. */
  lemma EntryBelongs(w: World, i: nat, e: Entry)
    requires Inv(w) && i < |w.links| && e in w.log && e.key == w.links[i].half.key
    ensures exists j :: 0 <= j < |w.links[i].sent| && e == EntryOf(w.links[i].half, w.links[i].sent[j], j)
  {
    assert Accounted(w.links, e);
  }

  /** What a receive accepts is the message sent at the receiver's own position. */
  lemma AcceptedIsNext(enc: Cipher, w: World, i: nat, kind: Kind, tag: int32, len: int, wire: seq<byte>)
    requires Inv(w) && i < |w.links|
    requires RecvFrame(w.log, enc, w.links[i].half, w.links[i].recvCtr, kind, tag, len, wire).Accepted?
    ensures var l := w.links[i];
            var p := RecvFrame(w.log, enc, l.half, l.recvCtr, kind, tag, len, wire).plain;
            l.recvCtr < |l.sent| && l.sent[l.recvCtr] == Msg(tag, p)
  {
    var l := w.links[i];
    var nonce, aad := wire[..NPUB], Aad(l.half, tag, len, l.recvCtr);
    var p := Open(w.log, enc, l.half.key, nonce, aad, wire[NPUB..]).value;
    var e := Entry(l.half.key, nonce, aad, p);
    EntryBelongs(w, i, e);
    var j :| 0 <= j < |l.sent| && e == EntryOf(l.half, l.sent[j], j);
    NonceRoundTrip(j);
    assert j == l.recvCtr;
    AadInjective(l.half, tag, len, l.recvCtr, l.half, l.sent[j].tag, |l.sent[j].plain|, j);
  }

  lemma AcceptKeepsInv(w: World, i: nat, msg: Msg)
    requires Inv(w) && i < |w.links|
    requires w.links[i].recvCtr < |w.links[i].sent| && w.links[i].sent[w.links[i].recvCtr] == msg
    ensures var l := w.links[i];
            Inv(w.(links := w.links[i := l.(recvCtr := Next(l.recvCtr), accepted := l.accepted + [msg])]))
  {
    var l := w.links[i];
    var l' := l.(recvCtr := Next(l.recvCtr), accepted := l.accepted + [msg]);
    var w' := w.(links := w.links[i := l']);
    AcceptedLinkOk(l, msg);
    hide LinkOk, NoncesUnique, EntryOf;
    SameSendersKeepLog(w, w');
    forall a | 0 <= a < |w'.links| ensures LinkOk(w'.links[a]) {
      assert LinkOk(w.links[a]);
    }
  }

  lemma AcceptedLinkOk(l: Link, msg: Msg)
    requires LinkOk(l) && l.recvCtr < |l.sent| && l.sent[l.recvCtr] == msg
    ensures LinkOk(l.(recvCtr := Next(l.recvCtr), accepted := l.accepted + [msg]))
  {
    assert l.accepted + [msg] == l.sent[..l.recvCtr + 1];
  }

  lemma DeliverKeepsInv(enc: Cipher, w: World, i: nat, kind: Kind, tag: int32, len: int, wire: seq<byte>)
    requires Inv(w)
    ensures Inv(Exec(enc, w, Deliver(i, kind, tag, len, wire)))
  {
    if i < |w.links| {
      var l := w.links[i];
      var out := RecvFrame(w.log, enc, l.half, l.recvCtr, kind, tag, len, wire);
      if out.Accepted? {
        AcceptedIsNext(enc, w, i, kind, tag, len, wire);
        AcceptKeepsInv(w, i, Msg(tag, out.plain));
      }
    }
  }

  /** The log invariants depend only on the keys and on the messages sent. */
  lemma SameSendersKeepLog(w: World, w': World)
    requires Inv(w) && w'.log == w.log && |w'.links| == |w.links|
    requires forall i :: 0 <= i < |w.links| ==>
               w'.links[i].half == w.links[i].half && w'.links[i].sent == w.links[i].sent
    ensures DistinctKeys(w'.links) && LogComplete(w') && forall e :: e in w'.log ==> Accounted(w'.links, e)
  {
    forall e | e in w'.log ensures Accounted(w'.links, e) {
      assert Accounted(w.links, e);
      var i, j :| 0 <= i < |w.links| && 0 <= j < |w.links[i].sent|
                  && e == EntryOf(w.links[i].half, w.links[i].sent[j], j);
      assert e == EntryOf(w'.links[i].half, w'.links[i].sent[j], j);
    }
  }

  lemma SendKeepsAccounts(w: World, i: nat, msg: Msg)
    requires Inv(w) && i < |w.links|
    ensures var l := w.links[i];
            var links' := w.links[i := l.(sendCtr := Next(l.sendCtr), sent := l.sent + [msg])];
            var log' := w.log + [EntryOf(l.half, msg, l.sendCtr)];
            (forall e :: e in log' ==> Accounted(links', e)) && LogComplete(World(log', links'))
  {
    var l := w.links[i];
    var links' := w.links[i := l.(sendCtr := Next(l.sendCtr), sent := l.sent + [msg])];
    var added := EntryOf(l.half, msg, l.sendCtr);
    var log' := w.log + [added];
    forall e | e in log' ensures Accounted(links', e) {
      if e == added {
        assert links'[i].sent[l.sendCtr] == msg;
      } else {
        assert Accounted(w.links, e);
        var a, j :| 0 <= a < |w.links| && 0 <= j < |w.links[a].sent|
                    && e == EntryOf(w.links[a].half, w.links[a].sent[j], j);
        assert links'[a].half == w.links[a].half && links'[a].sent[j] == w.links[a].sent[j];
      }
    }
    forall a, j | 0 <= a < |links'| && 0 <= j < |links'[a].sent|
      ensures EntryOf(links'[a].half, links'[a].sent[j], j) in log'
    {
      if a == i && j == l.sendCtr {
        assert log'[|w.log|] == added;
      } else {
        assert EntryOf(w.links[a].half, w.links[a].sent[j], j) in w.log;
      }
    }
  }

  /** The counter of the next message has not been used as a nonce under this key. */
  lemma NextNonceIsNew(w: World, i: nat, e: Entry)
    requires Inv(w) && i < |w.links| && e in w.log && e.key == w.links[i].half.key
    ensures e.nonce != Nonce(w.links[i].sendCtr)
  {
    EntryBelongs(w, i, e);
    var l := w.links[i];
    var j :| 0 <= j < |l.sent| && e == EntryOf(l.half, l.sent[j], j);
    NonceRoundTrip(j);
    NonceRoundTrip(l.sendCtr);
  }

  lemma SendKeepsNonces(w: World, i: nat, msg: Msg)
    requires Inv(w) && i < |w.links|
    ensures NoncesUnique(w.log + [EntryOf(w.links[i].half, msg, w.links[i].sendCtr)])
  {
    var l := w.links[i];
    forall a | 0 <= a < |w.log| && w.log[a].key == l.half.key ensures w.log[a].nonce != Nonce(l.sendCtr) {
      NextNonceIsNew(w, i, w.log[a]);
    }
  }

  lemma SendKeepsInv(enc: Cipher, w: World, i: nat, kind: Kind, msg: Msg)
    requires Inv(w)
    ensures Inv(Exec(enc, w, Send(i, kind, msg)))
  {
    if i < |w.links| {
      var l := w.links[i];
      if SendFrame(enc, l.half, l.sendCtr, kind, msg).Sent? {
        SendKeepsAccounts(w, i, msg);
        SendKeepsNonces(w, i, msg);
        var links' := w.links[i := l.(sendCtr := Next(l.sendCtr), sent := l.sent + [msg])];
        forall a | 0 <= a < |links'| ensures LinkOk(links'[a]) {
          assert LinkOk(w.links[a]);
        }
        assert Exec(enc, w, Send(i, kind, msg)).links == links';
      }
    }
  }

  lemma {:induction false} RunKeepsInv(enc: Cipher, w: World, events: seq<Event>)
    requires Fresh(w)
    ensures Inv(Run(enc, w, events))
  {
    if events != [] {
      RunKeepsInv(enc, w, events[..|events| - 1]);
      var mid := Run(enc, w, events[..|events| - 1]);
      match events[|events| - 1]
      case Send(i, kind, msg) => SendKeepsInv(enc, mid, i, kind, msg);
      case Deliver(i, kind, tag, len, wire) => DeliverKeepsInv(enc, mid, i, kind, tag, len, wire);
    }
  }

  // -------------------------------------------------------------------------- theorems

  lemma {:induction false} RunKeepsKeys(enc: Cipher, w: World, events: seq<Event>)
    ensures |Run(enc, w, events).links| == |w.links|
    ensures forall i :: 0 <= i < |w.links| ==> Run(enc, w, events).links[i].half == w.links[i].half
  {
    if events != [] {
      RunKeepsKeys(enc, w, events[..|events| - 1]);
    }
  }

  /** Whatever the network does, each receiver's accepted messages are a prefix of what its sender sent. */
  lemma AcceptedIsPrefixOfSent(enc: Cipher, w: World, events: seq<Event>, i: nat)
    requires Fresh(w) && i < |w.links|
    ensures var w' := Run(enc, w, events);
            |w'.links| == |w.links| && w'.links[i].accepted <= w'.links[i].sent
    ensures var l := Run(enc, w, events).links[i];
            l.sendCtr == |l.sent| <= U64_MAX && l.recvCtr == |l.accepted|
  {
    RunKeepsKeys(enc, w, events);
    RunKeepsInv(enc, w, events);
  }

  /** No key is ever used twice with the same nonce, over all links and all runs. */
  lemma NonceNeverReused(enc: Cipher, w: World, events: seq<Event>, a: nat, b: nat)
    requires Fresh(w)
    requires a < b < |Run(enc, w, events).log|
    ensures var log := Run(enc, w, events).log;
            log[a].key != log[b].key || log[a].nonce != log[b].nonce
  {
    RunKeepsInv(enc, w, events);
  }

  /** A receive that does not accept leaves both ends exactly as they were. */
  lemma RejectionChangesNothing(enc: Cipher, w: World, i: nat, kind: Kind, tag: int32, len: int, wire: seq<byte>)
    requires i < |w.links|
    ensures var l := w.links[i];
            !RecvFrame(w.log, enc, l.half, l.recvCtr, kind, tag, len, wire).Accepted?
            <==> Exec(enc, w, Deliver(i, kind, tag, len, wire)) == w
  {
    var l := w.links[i];
    var out := RecvFrame(w.log, enc, l.half, l.recvCtr, kind, tag, len, wire);
    if out.Accepted? {
      assert Exec(enc, w, Deliver(i, kind, tag, len, wire)).links[i].accepted == l.accepted + [Msg(tag, out.plain)];
    }
  }

  /** The bytes `SendFrame` put on the wire for the message at the receiver's position are accepted. */
  lemma HonestFrameIsAccepted(enc: Cipher, w: World, i: nat, kind: Kind)
    requires Inv(w) && i < |w.links|
    requires var l := w.links[i]; l.recvCtr < |l.sent| && |l.sent[l.recvCtr].plain| <= MaxPlain(kind)
    requires var l := w.links[i];
             |Encrypt(enc, EntryOf(l.half, l.sent[l.recvCtr], l.recvCtr))| == |l.sent[l.recvCtr].plain| + ABYTES
    ensures var l := w.links[i];
            var msg := l.sent[l.recvCtr];
            var wire := Nonce(l.recvCtr) + Encrypt(enc, EntryOf(l.half, msg, l.recvCtr));
            RecvFrame(w.log, enc, l.half, l.recvCtr, kind, msg.tag, |msg.plain|, wire) == Accepted(msg.plain)
  {
    var l := w.links[i];
    var msg := l.sent[l.recvCtr];
    var e := EntryOf(l.half, msg, l.recvCtr);
    var wire := Nonce(l.recvCtr) + Encrypt(enc, e);
    assert wire[..NPUB] == Nonce(l.recvCtr) && wire[NPUB..] == Encrypt(enc, e);
    NonceRoundTrip(l.recvCtr);
    assert e in w.log;
    var r := Open(w.log, enc, e.key, e.nonce, e.aad, Encrypt(enc, e));
    EntryBelongs(w, i, Entry(e.key, e.nonce, e.aad, r.value));
    var j :| 0 <= j < |l.sent| && Entry(e.key, e.nonce, e.aad, r.value) == EntryOf(l.half, l.sent[j], j);
    NonceRoundTrip(j);
  }
}
