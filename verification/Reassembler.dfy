/** The `Reassembler` object of proxy/eap_tls.py. */
module Reassemblers {
  import opened Prelude
  import opened Octets
  import opened EapTls
  import opened Spec = Reassembly

  class Reassembler {
    const maxMessageLen: nat
    var state: ReassemblyState
    var buffer: Bytes
    var expectedLen: Option<nat>
    var fragmentCount: nat

    ghost function View(): Reasm
      reads this
    {
      Reasm(state, buffer, expectedLen, fragmentCount)
    }

    constructor (maxMessageLen: nat)
      ensures this.maxMessageLen == maxMessageLen && View() == EMPTY
    {
      this.maxMessageLen := maxMessageLen;
      state, buffer, expectedLen, fragmentCount := Idle, [], None, 0;
    }

    method Reset()
      modifies this
      ensures View() == EMPTY
    {
      state := Idle;
      buffer := [];
      expectedLen := None;
      fragmentCount := 0;
    }

    /** Feeds one parsed packet in, updating the state even when it raises. */
    method Ingest(pkt: EapTlsPacket) returns (r: Ingested)
      modifies this
      ensures (View(), r) == Spec.Ingest(maxMessageLen, old(View()), pkt)
    {
      if pkt.IsAck() {
        return NeedMore;
      }
      if state.Idle? || state.Complete? {
        Reset();
        if pkt.lengthIncluded && pkt.tlsMessageLength.Some? {
          expectedLen := pkt.tlsMessageLength;
          if expectedLen.value > maxMessageLen {
            return Raised(DeclaredLengthExceedsMax);
          }
        }
        state := InProgress;
      }
      buffer := buffer + pkt.tlsData;
      fragmentCount := fragmentCount + 1;
      if |buffer| > maxMessageLen {
        return Raised(BufferExceedsMax);
      }
      if pkt.moreFragments {
        return NeedMore;
      }
      state := Complete;
      return Message(buffer);
    }
  }
}
