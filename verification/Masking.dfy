/** The dispatchers between the relay and the masking handlers. */
module Masking {
  import opened Bytes
  import opened Net
  import opened Stun

  /** The handler pointer of an entry or of the configuration; null is `NoMask`. */
  datatype Mask = NoMask | StunMask

  /** The list searched when neither an entry nor the configuration says which handler to use. */
  const MASKING_HANDLERS: seq<Mask> := [StunMask]

  const STUN_TIMER_INTERVAL_MS: int := 10 * 1000

  // ----- what the dispatchers compute

  function Handle(mask: Mask, view: seq<byte>, len: nat, src: Addr): Verdict
    requires len <= |view| && BINDING_RESPONSE_SIZE <= |view|
  {
    match mask
    case NoMask => Payload(view[..len])
    case StunMask => OnDataUnwrap(view, len, src)
  }

  /** The first handler that does not reject the packet; if all do, the packet stands as it came. */
  function Detect(handlers: seq<Mask>, view: seq<byte>, len: nat, src: Addr): (Verdict, Mask)
    requires len <= |view| && BINDING_RESPONSE_SIZE <= |view|
    decreases |handlers|
  {
    if handlers == [] then (Payload(view[..len]), NoMask)
    else
      var v := Handle(handlers[0], view, len, src);
      if v.Rejected? then Detect(handlers[1..], view, len, src) else (v, handlers[0])
  }

  /** `known` is the handler of the sender's entry, if it has one. */
  function UnwrapFromClient(known: Option<Mask>, configured: Mask, isSet: bool, view: seq<byte>, len: nat, src: Addr): (Verdict, Mask)
    requires len <= |view| && BINDING_RESPONSE_SIZE <= |view|
  {
    if known.None? && !isSet then Detect(MASKING_HANDLERS, view, len, src)
    else (Handle(if known.Some? then known.value else configured, view, len, src), configured)
  }

  function WrapData(mask: Mask, p: seq<byte>, txid: Txid): (w: seq<byte>)
    requires |p| <= BUFFER_SIZE
  {
    match mask
    case NoMask => p
    case StunMask => Wrap(p, txid)
  }

  /** What is sent ahead of an outgoing handshake. */
  function HandshakeProbe(mask: Mask, txid: Txid): seq<seq<byte>>
  {
    match mask
    case NoMask => []
    case StunMask => [BindingRequest(txid)]
  }

  // ----- properties

  /** Autodetection picks STUN exactly for packets STUN does not reject, and otherwise leaves the packet alone. */
  lemma AutodetectsStun(configured: Mask, view: seq<byte>, len: nat, src: Addr)
    requires len <= |view| && BINDING_RESPONSE_SIZE <= |view|
    ensures var (v, m) := UnwrapFromClient(None, configured, false, view, len, src);
      var s := OnDataUnwrap(view, len, src);
      if s.Rejected? then v == Payload(view[..len]) && m == NoMask else v == s && m == StunMask
  {
    assert MASKING_HANDLERS[1..] == [];
    assert Detect(MASKING_HANDLERS[1..], view, len, src) == (Payload(view[..len]), NoMask);
  }

  lemma WrapThenUnwrap(mask: Mask, p: seq<byte>, txid: Txid, view: seq<byte>, src: Addr)
    requires |p| <= BUFFER_SIZE && BINDING_RESPONSE_SIZE <= |view| && WrapData(mask, p, txid) <= view
    ensures Handle(mask, view, |WrapData(mask, p, txid)|, src) == Payload(p)
  {
    if mask == StunMask {
      UnwrapWrap(p, txid, view, src);
    }
  }

  // ----- the shipped form, in the packet buffer

  /** How a verdict shows in the buffer and in the results of a handler. */
  ghost predicate Reported(v: Verdict, before: seq<byte>, after: seq<byte>, off0: nat, length: nat, r: int, off: nat, replies: seq<seq<byte>>)
  {
    match v
    case Rejected => r < 0 && off == off0 && replies == [] && after == before
    case Consumed(sent) => r == 0 && off == off0 && replies == sent
    case Payload(bytes) =>
      && off0 <= off && 0 <= r == |bytes| && off + r <= off0 + length <= |after|
      && replies == [] && after == before && after[off..off + r] == bytes
  }

  method HandleInPlace(mask: Mask, buf: array<byte>, off0: nat, length: nat, src: Addr)
    returns (r: int, off: nat, replies: seq<seq<byte>>)
    requires off0 + length <= buf.Length && off0 + BINDING_RESPONSE_SIZE <= buf.Length
    modifies buf
    ensures Reported(Handle(mask, old(buf[off0..]), length, src), old(buf[..]), buf[..], off0, length, r, off, replies)
  {
    if mask == NoMask {
      assert buf[off0..][..length] == buf[off0..off0 + length] == buf[..][off0..off0 + length];
      return length, off0, [];
    }
    r, off, replies := OnDataUnwrapInPlace(buf, off0, length, src);
    assert r >= 0 && off + r <= buf.Length ==> buf[off..off + r] == buf[..][off..off + r];
  }

  /** Tries every handler in turn; a handler that rejects the packet has its pointer move undone. */
  method DetectInPlace(buf: array<byte>, off0: nat, length: nat, src: Addr)
    returns (r: int, off: nat, replies: seq<seq<byte>>, handler: Mask)
    requires off0 + length <= buf.Length && off0 + BINDING_RESPONSE_SIZE <= buf.Length
    modifies buf
    ensures var (v, m) := Detect(MASKING_HANDLERS, old(buf[off0..]), length, src);
      handler == m && Reported(v, old(buf[..]), buf[..], off0, length, r, off, replies)
  {
    off := off0;
    ghost var was, view := buf[..], buf[off0..];
    var i := 0;
    while i < |MASKING_HANDLERS|
      invariant 0 <= i <= |MASKING_HANDLERS| && off == off0 && buf[..] == was
      invariant Detect(MASKING_HANDLERS, view, length, src) == Detect(MASKING_HANDLERS[i..], view, length, src)
    {
      var saved := off;
      assert buf[off0..] == was[off0..] == view;
      r, off, replies := HandleInPlace(MASKING_HANDLERS[i], buf, off, length, src);
      if r < 0 {
        off := saved;
        i := i + 1;
        continue;
      }
      return r, off, replies, MASKING_HANDLERS[i];
    }
    assert buf[..][off..off + length] == view[..length];
    return length, off, [], NoMask;
  }

  method UnwrapFromClientInPlace(known: Option<Mask>, configured: Mask, isSet: bool, buf: array<byte>, off0: nat, length: nat, src: Addr)
    returns (r: int, off: nat, replies: seq<seq<byte>>, handler: Mask)
    requires off0 + length <= buf.Length && off0 + BINDING_RESPONSE_SIZE <= buf.Length
    modifies buf
    ensures var (v, m) := UnwrapFromClient(known, configured, isSet, old(buf[off0..]), length, src);
      handler == m && Reported(v, old(buf[..]), buf[..], off0, length, r, off, replies)
  {
    if known.None? && !isSet {
      r, off, replies, handler := DetectInPlace(buf, off0, length, src);
      return;
    }
    handler := configured;
    r, off, replies := HandleInPlace(if known.Some? then known.value else configured, buf, off0, length, src);
  }

  /** Only the STUN handler minds the length; its error leaves packet and offset alone. */
  method WrapDataInPlace(mask: Mask, buf: array<byte>, off0: nat, length: nat, txid: Txid) returns (r: int, off: nat)
    requires STUN_WRAP_OVERHEAD <= off0 && off0 + length <= buf.Length
    modifies buf
    ensures length <= BUFFER_SIZE ==>
      var w := WrapData(mask, old(buf[off0..off0 + length]), txid);
      0 <= r == |w| && off <= off0 && off + r == off0 + length && buf[off..off + r] == w
    ensures length > BUFFER_SIZE ==>
      off == off0 && buf[..] == old(buf[..]) && if mask == NoMask then r == length else r < 0
  {
    if mask == NoMask {
      return length, off0;
    }
    r, off := WrapInPlace(buf, off0, length, txid);
    if length <= BUFFER_SIZE {
      assert buf[off..off + r] == buf[..][off..off + r];
    }
  }
}
