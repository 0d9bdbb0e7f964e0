/** The Finished message (section 4.4.4 of RFC 8446): a non-empty verify_data and nothing else. */
module Finished {
  import opened Wrappers
  import opened BigEndian
  import opened Handshake

  datatype FinishedMessage = FinishedMessage(verifyData: seq<byte>)

  function Marshal(m: FinishedMessage): Result<seq<byte>, Error> {
    if |m.verifyData| == 0 then Err(InvalidLength)
    else Handshake.Marshal(HandshakeMessage(FINISHED, m.verifyData))
  }

  /** The message and the bytes it is re-printed to. */
  function Unmarshal(b: seq<byte>): Result<(FinishedMessage, seq<byte>), Error> {
    var (hm, rest) :- Handshake.Unmarshal(b);
    if rest != [] || hm.typ != FINISHED || |hm.body| == 0 then Err(InvalidLength)
    else Ok((FinishedMessage(hm.body), Reprint(hm)))
  }

  lemma UnmarshalMarshal(m: FinishedMessage)
    requires Marshal(m).Ok?
    ensures Unmarshal(Marshal(m).value) == Ok((m, Marshal(m).value))
  {
    Handshake.UnmarshalMarshal(HandshakeMessage(FINISHED, m.verifyData), []);
    assert Marshal(m).value + [] == Marshal(m).value;
    hide Handshake.Marshal, Handshake.Unmarshal;
  }

  lemma MarshalUnmarshal(b: seq<byte>)
    requires Unmarshal(b).Ok?
    ensures Marshal(Unmarshal(b).value.0) == Ok(b) && Unmarshal(b).value.1 == b
  {
    Handshake.MarshalUnmarshal(b);
    assert b + [] == b;
  }
}
