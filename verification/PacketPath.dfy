/** The way of one packet through the relay's buffer: received, unmasked, decoded, encoded, masked. */
module PacketPath {
  import opened Bytes
  import opened Net
  import opened Keystream
  import opened Codec
  import opened Stun
  import opened Masking
  import opened RelaySpec

  /** What the buffer holds from the main window on after a datagram was received into it. */
  function Received(full: seq<byte>, pkt: seq<byte>): (view: seq<byte>)
    requires |full| == PREBUFFER_SIZE + BUFFER_SIZE
    ensures |view| == BUFFER_SIZE && (|pkt| <= BUFFER_SIZE ==> pkt <= view)
  {
    Splice(full[PREBUFFER_SIZE..], 0, if |pkt| <= BUFFER_SIZE then pkt else pkt[..BUFFER_SIZE])
  }

  /** How an ingress shows in the buffer: the window `[off, off + length)` stays inside the buffer. */
  ghost predicate Shown(g: Ingress, full: seq<byte>, ok: bool, off: nat, length: nat, obfuscated: bool, version: nat, mask: Mask,
                        replies: seq<seq<byte>>)
  {
    match g
    case Dropped(sent) => !ok && replies == sent
    case Accepted(p, o, v, m) =>
      && ok && replies == [] && obfuscated == o && version == v && mask == m
      && PREBUFFER_SIZE <= off && off + length <= |full| && full[off..off + length] == p
      && 4 <= length <= BUFFER_SIZE && (!o ==> off == PREBUFFER_SIZE)
  }

  /** The packet buffer with the keystream cache, as one process has them. */
  class Path {
    const cfg: Config
    const cache: Cache
    const full: array<byte>

    ghost function Repr(): set<object>
      reads cache
    {
      {full} + cache.Repr
    }

    ghost predicate Valid()
      reads cache, cache.Repr, cache.rows
    {
      && ValidConfig(cfg) && cache.Valid() && cache.key == cfg.key
      && full.Length == PREBUFFER_SIZE + BUFFER_SIZE && full !in cache.Repr
    }

    twostate lemma Undisturbed()
      requires old(Valid()) && unchanged(old(Repr()))
      ensures Valid() && Repr() == old(Repr())
    {
      assert cache in old(Repr()) && forall r :: r in cache.rows ==> r in old(Repr());
      hide Cache.Valid;
      assert cache.Valid();
    }

    /** The packet `p` stands in the buffer at `off`; a plain packet is where it was received. */
    ghost predicate Holds(p: seq<byte>, off: nat, length: nat, obfuscated: bool)
      reads full
    {
      && PREBUFFER_SIZE <= off && 4 <= length == |p| <= BUFFER_SIZE && off + length <= full.Length
      && p == full[off..off + length] && (!obfuscated ==> off == PREBUFFER_SIZE)
    }

    function KindAt(off: nat, length: nat, ghost p: seq<byte>, ghost obfuscated: bool): (kind: nat)
      requires 4 <= |p| && Holds(p, off, length, obfuscated)
      reads full
      ensures kind == WgType(p)
    {
      WgType(full[off..off + length])
    }

    constructor (cfg: Config)
      requires ValidConfig(cfg)
      ensures Valid() && fresh(Repr()) && this.cfg == cfg
    {
      this.cfg := cfg;
      cache := new Cache(cfg.key);
      full := new byte[PREBUFFER_SIZE + BUFFER_SIZE];
    }

    /** `recv`: a datagram that is too long is cut, but its real length is returned. */
    method Receive(pkt: seq<byte>) returns (length: nat)
      requires Valid()
      modifies full
      ensures Valid() && length == |pkt|
      ensures full[PREBUFFER_SIZE..] == Received(old(full[..]), pkt)
    {
      length := |pkt|;
      ghost var was := full[..];
      var data := if |pkt| <= BUFFER_SIZE then pkt else pkt[..BUFFER_SIZE];
      Put(full, PREBUFFER_SIZE, data);
      assert full[PREBUFFER_SIZE..] == full[..][PREBUFFER_SIZE..] == Splice(was[PREBUFFER_SIZE..], 0, data);
    }

    /** Decodes an unmasked packet at `off`. */
    method Open(r: int, off0: nat, mask0: Mask, version0: nat, allocOk: bool, ghost v: Verdict)
      returns (ok: bool, length: nat, version: nat)
      requires Valid() && PREBUFFER_SIZE <= off0 && r <= BUFFER_SIZE
      requires if r > 0 then v.Payload? && off0 + r <= full.Length && full[off0..off0 + r] == v.bytes
               else v.Rejected? || v.Consumed? || (v.Payload? && v.bytes == [])
      modifies full, cache.Repr
      ensures Valid() && fresh(Repr() - old(Repr()))
      ensures !v.Consumed? ==>
        Shown(RelaySpec.Open(cfg, v, mask0, version0), full[..], ok, off0, length, true, version, mask0, [])
      ensures v.Consumed? ==> !ok
    {
      hide Decode;
      version := version0;
      if r < 4 {
        return false, 0, version;
      }
      var n: int;
      n, version := DecodeInPlace(cache, full, off0, r, version, allocOk);
      if n < 4 || n > r {
        return false, 0, version;
      }
      ghost var d := Decode(cfg.key, v.bytes, version0);
      assert full[..][off0..off0 + n] == d.bytes[..n];
      return true, n, version;
    }

    method FromClient(known: Option<Conn>, length0: nat, sender: Addr, allocOk: bool)
      returns (ok: bool, off: nat, length: nat, obfuscated: bool, version: nat, mask: Mask, replies: seq<seq<byte>>)
      requires Valid() && length0 <= BUFFER_SIZE
      modifies full, cache.Repr
      ensures Valid() && fresh(Repr() - old(Repr()))
      ensures Shown(ClientIngress(cfg, known, old(full[PREBUFFER_SIZE..]), length0, sender), full[..],
                    ok, off, length, obfuscated, version, mask, replies)
    {
      hide UnwrapFromClient, RelaySpec.Open;
      ghost var was, view := full[..], full[PREBUFFER_SIZE..];
      assert view == was[PREBUFFER_SIZE..];
      off, length, replies := PREBUFFER_SIZE, length0, [];
      version := if known.Some? then known.value.version else OBFUSCATION_VERSION;
      mask := cfg.mask;
      assert view[..length0] == full[off..off + length0];
      obfuscated := length >= 4 && IsObfuscated(full[off..off + length]);
      if obfuscated {
        var r: int;
        ghost var (v, m) := UnwrapFromClient(if known.Some? then Some(known.value.mask) else None, cfg.mask, cfg.maskSet, view, length0, sender);
        r, off, replies, mask :=
          UnwrapFromClientInPlace(if known.Some? then Some(known.value.mask) else None, cfg.mask, cfg.maskSet, full, off, length, sender);
        VerdictShape(v, was, full[..], PREBUFFER_SIZE, length0, r, off, replies);
        OpenConsumed(cfg, v, mask, version);
        ok, length, version := Open(r, off, mask, version, allocOk, v);
        return;
      }
      return length >= 4, off, length, false, version, mask, replies;
    }

    method FromServer(c: Conn, length0: nat, target: Addr, allocOk: bool)
      returns (ok: bool, off: nat, length: nat, obfuscated: bool, version: nat, replies: seq<seq<byte>>)
      requires Valid() && length0 <= BUFFER_SIZE
      modifies full, cache.Repr
      ensures Valid() && fresh(Repr() - old(Repr()))
      ensures Shown(ServerIngress(cfg, c, old(full[PREBUFFER_SIZE..]), length0, target), full[..],
                    ok, off, length, obfuscated, version, c.mask, replies)
    {
      hide Handle, RelaySpec.Open;
      ghost var was, view := full[..], full[PREBUFFER_SIZE..];
      assert view == was[PREBUFFER_SIZE..];
      off, length, replies, version := PREBUFFER_SIZE, length0, [], c.version;
      assert view[..length0] == full[off..off + length0];
      obfuscated := length >= 4 && IsObfuscated(full[off..off + length]);
      if obfuscated {
        var r: int;
        r, off, replies := HandleInPlace(c.mask, full, off, length, target);
        ghost var v := Handle(c.mask, view, length0, target);
        VerdictShape(v, was, full[..], PREBUFFER_SIZE, length0, r, off, replies);
        OpenConsumed(cfg, v, c.mask, version);
        ok, length, version := Open(r, off, c.mask, version, allocOk, v);
        return;
      }
      return length >= 4, off, length, false, version, replies;
    }

    /** Encodes and masks a plain packet that is to leave obfuscated; otherwise the packet leaves as it stands. */
    method Leave(c: Conn, off0: nat, length0: nat, obfuscated: bool, luck: Luck, allocOk: bool) returns (length: nat, off: nat)
      requires Valid() && PREBUFFER_SIZE <= off0 && 4 <= length0 <= BUFFER_SIZE && off0 + length0 <= full.Length
      requires !obfuscated ==> off0 == PREBUFFER_SIZE
      modifies full, cache.Repr
      ensures Valid() && fresh(Repr() - old(Repr()))
      ensures off + length <= full.Length && full[off..off + length] == Outgoing(cfg, c, old(full[off0..off0 + length0]), obfuscated, luck)
    {
      hide Encode, WrapData;
      length, off := length0, off0;
      if !obfuscated && !c.clean {
        ghost var p := full[off0..off0 + length0];
        EncodedLength(cfg.key, p, c.version, cfg.maxDummyData, luck.dice);
        length := EncodeInPlace(cache, full, off, length, c.version, cfg.maxDummyData, luck.dice, allocOk);
        assert full[off..off + length] == full[..][off..off + length];
        var r: int;
        r, off := WrapDataInPlace(c.mask, full, off, length, luck.wrapId);
        length := r;
      }
    }
  }

  lemma OpenConsumed(cfg: Config, v: Verdict, mask: Mask, version0: nat)
    requires ValidConfig(cfg)
    ensures v.Consumed? ==> RelaySpec.Open(cfg, v, mask, version0) == Dropped(v.replies)
  {
  }

  lemma VerdictShape(v: Verdict, before: seq<byte>, after: seq<byte>, off0: nat, length: nat, r: int, off: nat, replies: seq<seq<byte>>)
    requires Reported(v, before, after, off0, length, r, off, replies) && length <= BUFFER_SIZE
    ensures off0 <= off && r <= BUFFER_SIZE
    ensures if r > 0 then v.Payload? && off + r <= |after| && after[off..off + r] == v.bytes
            else v.Rejected? || v.Consumed? || (v.Payload? && v.bytes == [])
    ensures if v.Consumed? then replies == v.replies else replies == []
  {
  }
}
