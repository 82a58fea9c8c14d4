// The log ring driven by one caller at a time, as code over the byte array.

module LogRings {
  import opened Arith
  import opened LogRecords
  import opened LogQueue
  import opened LogStore

  class LogRing {
    const mem: array<Byte>
    const size: nat
    var head: nat
    var tail: nat
    var dirty: bool
    var sum: nat
    var dropCnt: nat
    ghost var view: RingView

    ghost predicate Valid()
      reads this, mem
    {
      && Image(mem[..], view) && size == view.size
      && tail == Wrap(view.tail) && head == Wrap(HeadOf(view))
      && dirty == view.dirty && sum == Wrap(view.sum) && dropCnt == Wrap(view.drops)
    }

    constructor (size: nat)
      requires SizeOk(size)
      ensures Valid() && fresh(mem) && view == RingView(size, 0, [], false, 0, 0)
    {
      this.size := size;
      head, tail, dirty, sum, dropCnt := 0, 0, false, 0, 0;
      view := RingView(size, 0, [], false, 0, 0);
      mem := new Byte[size + 8](i => if 0 <= i - size < 8 then GUARD[i - size] else 0);
    }

    // Copies with 8-, 4-, 2- and 1-byte stores, widest first.
    static method CopyU64(dst: array<Byte>, d0: nat, src: array<Byte>, s0: nat, n: nat)
      requires dst != src && d0 + n <= dst.Length && s0 + n <= src.Length
      modifies dst
      ensures forall k :: 0 <= k < dst.Length ==>
                dst[k] == if d0 <= k < d0 + n then src[s0 + k - d0] else old(dst[k])
    {
      var d, s, len := d0, s0, n;
      while len >= 8
        invariant d == d0 + n - len && s == s0 + n - len && 0 <= len <= n
        invariant forall k :: 0 <= k < dst.Length ==>
                    dst[k] == if d0 <= k < d then src[s0 + k - d0] else old(dst[k])
      {
        Store(dst, d, src, s, 8);
        d, s, len := d + 8, s + 8, len - 8;
      }
      if len >= 4 {
        Store(dst, d, src, s, 4);
        d, s, len := d + 4, s + 4, len - 4;
      }
      if len >= 2 {
        Store(dst, d, src, s, 2);
        d, s, len := d + 2, s + 2, len - 2;
      }
      if len > 0 {
        dst[d] := src[s];
      }
    }

    // One store of `w` bytes.
    static method Store(dst: array<Byte>, d: nat, src: array<Byte>, s: nat, w: nat)
      requires dst != src && d + w <= dst.Length && s + w <= src.Length
      modifies dst
      ensures forall k :: 0 <= k < dst.Length ==>
                dst[k] == if d <= k < d + w then src[s + k - d] else old(dst[k])
    {
      forall k | d <= k < d + w {
        dst[k] := src[s + k - d];
      }
    }

    method CopyToRing(pos: nat, src: array<Byte>, s: nat, len: nat)
      requires 0 < size <= mem.Length && src != mem && s + len <= src.Length && len <= size
      modifies mem
      ensures mem[..] == Put(old(mem[..]), size, Index(size, pos), src[s..s + len])
    {
      var hid := Index(size, pos);
      var spaceToEnd := size - hid;
      ghost var b := mem[..];
      if len <= spaceToEnd {
        CopyU64(mem, hid, src, s, len);
        PutLinear(b, size, hid, src[s..s + len]);
      } else {
        ghost var t, u := src[s..s + spaceToEnd], src[s + spaceToEnd..s + len];
        assert src[s..s + len] == t + u;
        CopyU64(mem, hid, src, s, spaceToEnd);
        PutLinear(b, size, hid, t);
        ghost var c := mem[..];
        assert c == Put(b, size, hid, t);
        CopyU64(mem, 0, src, s + spaceToEnd, len - spaceToEnd);
        PutLinear(c, size, 0, u);
        assert mem[..] == Put(c, size, 0, u);
        PutWrapped(b, size, hid, t, u);
      }
    }

    method CopyFromRing(dst: array<Byte>, d: nat, pos: nat, len: nat)
      requires 0 < size <= mem.Length && dst != mem && d + len <= dst.Length && len <= size
      modifies dst
      ensures forall i :: 0 <= i < len ==> dst[d + i] == mem[At(size, Index(size, pos), i)]
      ensures forall i :: 0 <= i < d || d + len <= i < dst.Length ==> dst[i] == old(dst[i])
    {
      var tid := Index(size, pos);
      var spaceToEnd := size - tid;
      if len <= spaceToEnd {
        CopyU64(dst, d, mem, tid, len);
        assert forall i :: 0 <= i < dst.Length ==> dst[i] == dst[..][i];
      } else {
        CopyU64(dst, d, mem, tid, spaceToEnd);
        assert forall i :: 0 <= i < dst.Length ==> dst[i] == dst[..][i];
        label first:
        CopyU64(dst, d + spaceToEnd, mem, 0, len - spaceToEnd);
        assert forall i :: 0 <= i < dst.Length ==> dst[i] == dst[..][i];
      }
    }

    method ZeroPadding(endPos: nat, padLen: nat)
      requires SizeOk(size) && mem.Length >= size && endPos < U32
      modifies mem
      ensures padLen <= 3 ==> mem[..] == Put(old(mem[..]), size, Index(size, endPos), Zeros(padLen))
      ensures padLen > 3 ==> mem[..] == old(mem[..])
    {
      IndexAdd(size, endPos, 1);
      IndexAdd(size, endPos, 2);
      ghost var b, h := mem[..], Index(size, endPos);
      ZeroedIs(b, size, h, padLen);
      if padLen == 3 {
        mem[Index(size, Wrap(endPos + 2))] := 0;
      }
      ghost var b2 := if padLen == 3 then b[At(size, h, 2) := 0] else b;
      assert mem[..] == b2;
      if padLen == 2 || padLen == 3 {
        mem[Index(size, Wrap(endPos + 1))] := 0;
      }
      ghost var b1 := if padLen == 2 || padLen == 3 then b2[At(size, h, 1) := 0] else b2;
      assert mem[..] == b1;
      if 1 <= padLen <= 3 {
        mem[Index(size, endPos)] := 0;
      }
      assert mem[..] == if 1 <= padLen <= 3 then b1[h := 0] else b1;
    }

    // Zeros `padLen` bytes; a run that crosses the end of the buffer goes byte by byte.
    method AlignedZeroPadding(endPos: nat, padLen: nat)
      requires SizeOk(size) && mem.Length >= size && endPos < U32 && padLen < 8
      modifies mem
      ensures Index(size, endPos) + padLen <= size || padLen <= 3 ==>
                mem[..] == Put(old(mem[..]), size, Index(size, endPos), Zeros(padLen))
      ensures Index(size, endPos) + padLen > size && padLen > 3 ==> mem[..] == old(mem[..])
    {
      var hid := Index(size, endPos);
      if hid + padLen > size {
        ZeroPadding(endPos, padLen);
      } else {
        ZeroRun(hid, padLen);
      }
    }

    // Zeros a run that does not wrap, with the widest stores that stay aligned.
    method ZeroRun(h: nat, padLen: nat)
      requires h + padLen <= mem.Length && padLen < 8
      modifies mem
      ensures forall k :: 0 <= k < mem.Length ==> mem[k] == if h <= k < h + padLen then 0 else old(mem[k])
    {
      var hid, left := h, padLen;
      var alignBytes := (4 - hid % 4) % 4;
      if alignBytes <= left {
        if alignBytes % 2 == 1 {
          mem[hid] := 0;
          hid := hid + 1;
        }
        if alignBytes >= 2 {
          mem[hid], mem[hid + 1] := 0, 0;
          hid := hid + 2;
        }
        left := left - alignBytes;
      }
      if left >= 4 {
        mem[hid], mem[hid + 1], mem[hid + 2], mem[hid + 3] := 0, 0, 0, 0;
        hid, left := hid + 4, left - 4;
      }
      if left == 3 {
        mem[hid + 2] := 0;
      }
      if left == 2 || left == 3 {
        mem[hid + 1] := 0;
      }
      if 1 <= left <= 3 {
        mem[hid] := 0;
      }
    }

    // Copies header, payload and padding of one record into its reserved bytes, then seals it.
    method WriteRecord(start: nat, hdr: array<Byte>, buf: array<Byte>, len: nat)
      requires SizeOk(size) && mem.Length >= size && start < U32 && start % 8 == 0
      requires hdr != mem && hdr.Length == HDR_SIZE && buf != mem && 1 <= len <= MAX_DATA_SIZE <= buf.Length
      modifies mem
      ensures mem[..] == Put(old(mem[..]), size, Index(size, start), Sealed(hdr[..], buf[..len]))
    {
      ghost var b := mem[..];
      WritePayload(start, hdr, buf, len);
      ghost var s := hdr[..] + buf[..if len < 4 then 4 else len];
      assert s[..HDR_SIZE + len] == hdr[..] + buf[..len];
      PadRecord(start, len, b, s);
      mem[Index(size, start)] := LOG_TAG_SEAL;
      SealFirst(b, size, Index(size, start), hdr[..], buf[..len], mem[..]);
    }

    // Four payload bytes are always written with the header; padding covers what is too much.
    method WritePayload(start: nat, hdr: array<Byte>, buf: array<Byte>, len: nat)
      requires SizeOk(size) && mem.Length >= size && start < U32
      requires hdr != mem && hdr.Length == HDR_SIZE && buf != mem && 1 <= len <= MAX_DATA_SIZE <= buf.Length
      modifies mem
      ensures mem[..] == Put(old(mem[..]), size, Index(size, start), hdr[..] + buf[..if len < 4 then 4 else len])
    {
      ghost var b, s := mem[..], hdr[..] + buf[..4];
      WriteStart(start, hdr, buf, AlignUp8(HDR_SIZE + len));
      if len > 4 {
        IndexAdd(size, start, HDR_SIZE + 4);
        CopyToRing(Wrap(start + HDR_SIZE + 4), buf, 4, len - 4);
        PutOver(b, size, Index(size, start), s, HDR_SIZE + 4, buf[4..4 + (len - 4)]);
        assert s[..HDR_SIZE + 4] + buf[4..4 + (len - 4)] == hdr[..] + buf[..len];
      }
    }

    method PadRecord(start: nat, len: nat, ghost b: seq<Byte>, ghost s: seq<Byte>)
      requires SizeOk(size) && mem.Length == |b| >= size && start < U32 && start % 8 == 0
      requires len <= MAX_DATA_SIZE && HDR_SIZE + len <= |s| <= AlignUp8(HDR_SIZE + len)
      requires mem[..] == Put(b, size, Index(size, start), s)
      modifies mem
      ensures mem[..] == Put(b, size, Index(size, start),
                             s[..HDR_SIZE + len] + Zeros(AlignUp8(HDR_SIZE + len) - (HDR_SIZE + len)))
    {
      var padLen := AlignUp8(HDR_SIZE + len) - (HDR_SIZE + len);
      PadBehind(b, size, start, s, len);
      AlignedZeroPadding(Wrap(start + HDR_SIZE + len), padLen);
    }

    // The header and the first four payload bytes, either of which may straddle the end of the buffer.
    method WriteStart(start: nat, hdr: array<Byte>, buf: array<Byte>, tot: nat)
      requires SizeOk(size) && mem.Length >= size && start < U32 && HDR_SIZE + 4 <= tot <= size
      requires hdr != mem && hdr.Length == HDR_SIZE && buf != mem && buf.Length >= 4
      modifies mem
      ensures mem[..] == Put(old(mem[..]), size, Index(size, start), hdr[..] + buf[..4])
    {
      ghost var b := mem[..];
      WriteHeader(start, hdr);
      WriteWord(start, buf, tot);
      PutOver(b, size, Index(size, start), hdr[..], HDR_SIZE, buf[..4]);
      assert hdr[..][..HDR_SIZE] == hdr[..];
    }

    method WriteHeader(start: nat, hdr: array<Byte>)
      requires HDR_SIZE <= size <= mem.Length && hdr != mem && hdr.Length == HDR_SIZE
      modifies mem
      ensures mem[..] == Put(old(mem[..]), size, Index(size, start), hdr[..])
    {
      var hid := Index(size, start);
      if hid <= size - HDR_SIZE {
        Store(mem, hid, hdr, 0, 8);
        Store(mem, hid + 8, hdr, 8, 4);
      } else {
        CopyToRing(start, hdr, 0, HDR_SIZE);
        assert hdr[0..HDR_SIZE] == hdr[..];
      }
    }

    method WriteWord(start: nat, buf: array<Byte>, tot: nat)
      requires SizeOk(size) && mem.Length >= size && start < U32 && HDR_SIZE + 4 <= tot <= size
      requires buf != mem && buf.Length >= 4
      modifies mem
      ensures mem[..] == Put(old(mem[..]), size, At(size, Index(size, start), HDR_SIZE), buf[..4])
    {
      var hid := Index(size, start);
      IndexAdd(size, start, HDR_SIZE);
      if hid <= size - tot || hid <= size - (HDR_SIZE + 4) {
        Store(mem, hid + HDR_SIZE, buf, 0, 4);
      } else {
        CopyToRing(Wrap(start + HDR_SIZE), buf, 0, 4);
      }
    }

    // The twelve header bytes at `pos`, read directly unless they wrap.
    method ReadHeader(pos: nat, hdr: array<Byte>)
      requires SizeOk(size) && mem.Length >= size && hdr != mem && hdr.Length == HDR_SIZE
      modifies hdr
      ensures forall i :: 0 <= i < HDR_SIZE ==> hdr[i] == mem[At(size, Index(size, pos), i)]
    {
      var tid := Index(size, pos);
      if tid <= size - HDR_SIZE {
        Store(hdr, 0, mem, tid, 8);
        Store(hdr, 8, mem, tid + 8, 4);
      } else {
        CopyFromRing(hdr, 0, pos, HDR_SIZE);
      }
    }

    // Size of the sealed record at the tail, from the lengths in its header.
    method TailSize() returns (n: nat)
      requires Valid() && view.recs != []
      ensures n == Size(view.recs[0])
    {
      IndexWrap(size, view.tail);
      StoredHeader(mem[..], size, Index(size, tail), view.recs);
      assert mem[Index(size, tail)] == LOG_TAG_SEAL;
      var hdr := new Byte[HDR_SIZE];
      ReadHeader(tail, hdr);
      n := HDR_SIZE + hdr[4] as nat + hdr[5] as nat;
    }

    method DropOldest()
      requires Valid() && view.recs != []
      modifies this`tail, this`dropCnt, this`view
      ensures Valid() && view == Dropped(old(view))
    {
      var oldSize := TailSize();
      DropImage(mem[..], view);
      FreedOk(view);
      WrapAdd(view.tail, oldSize);
      WrapAdd(view.drops, 1);
      tail, dropCnt, view := Wrap(tail + oldSize), Wrap(dropCnt + 1), Dropped(view);
    }

    // One turn of the loop that makes room.
    method DropForRoom(tot: nat)
      requires Valid() && tot <= 272 && Total(view.recs) + tot > size
      modifies this`tail, this`dropCnt, this`view
      ensures Valid() && |view.recs| < |old(view).recs|
      ensures Wrap(head + tot + U32 - tail) == Total(view.recs) + tot
      ensures MadeRoom(view, size - tot) == MadeRoom(old(view), size - tot)
    {
      RoomTurn(view, tot);
      DropOldest();
    }

    // Drops records from the tail until `tot` more bytes fit.
    method MakeRoom(tot: nat)
      requires Valid() && tot <= 272
      modifies this`tail, this`dropCnt, this`view
      ensures Valid() && view == MadeRoom(old(view), size - tot)
    {
      RoomStep(view, tot);
      while Wrap(head + tot + U32 - tail) > size
        invariant Valid() && Wrap(head + tot + U32 - tail) == Total(view.recs) + tot
        invariant MadeRoom(view, size - tot) == MadeRoom(old(view), size - tot)
        decreases |view.recs|
      {
        DropForRoom(tot);
      }
      RoomEnough(view, size - tot);
    }

    // `vlen` is what vsnprintf returned for the message it wrote to `buf`.
    method Dispatch(dom: Byte, ent: Byte, lvl: Byte, buf: array<Byte>, vlen: int, ts: nat)
      requires Valid() && buf != mem && buf.Length == MAX_DATA_SIZE + 5 && ts < 0x1_0000_0000_0000
      modifies this, mem
      ensures Valid()
      ensures vlen <= 0 ==> view == old(view) && mem[..] == old(mem[..])
      ensures vlen > 0 ==>
                var r := Record(dom, ent, lvl, ts, if vlen <= 255 then old(buf[..vlen]) else old(buf[..255]));
                && view == Dispatched(old(view), r)
                && mem[..] == Put(old(mem[..]), size, Index(size, HeadOf(old(view))), Encode(r))
    {
      if vlen > 0 {
        var len: nat := if vlen < MAX_DATA_SIZE then vlen else MAX_DATA_SIZE;
        ghost var r := Record(dom, ent, lvl, ts, buf[..len]);
        MadeRoomOk(view, size - Size(r));
        MakeRoom(AlignUp8(HDR_SIZE + len));
        StoreRecord(dom, ent, lvl, buf, len, ts, r);
      }
    }

    // The record goes into room already made: its header is built first.
    method StoreRecord(dom: Byte, ent: Byte, lvl: Byte, buf: array<Byte>, len: nat, ts: nat, ghost r: Record)
      requires Valid() && buf != mem && MAX_DATA_SIZE <= buf.Length
      requires 1 <= len <= MAX_DATA_SIZE && ts < 0x1_0000_0000_0000
      requires r == Record(dom, ent, lvl, ts, buf[..len]) && Total(view.recs) + Size(r) <= size
      modifies this, mem
      ensures Valid() && view == Appended(old(view), r)
      ensures mem[..] == Put(old(mem[..]), size, Index(size, HeadOf(old(view))), Encode(r))
    {
      ghost var b := mem[..];
      var hdr := new Byte[HDR_SIZE];
      FillHeader(hdr, r, lvl, dom, ent, len, AlignUp8(HDR_SIZE + len) - (HDR_SIZE + len), ts);
      assert r.payload == buf[..len] && mem[..] == b;
      Append(hdr, buf, len, r);
    }

    // Reserves bytes at the head, fills them with the record and seals it.
    method Append(hdr: array<Byte>, buf: array<Byte>, len: nat, ghost r: Record)
      requires Valid() && buf != mem && MAX_DATA_SIZE <= buf.Length && len <= MAX_DATA_SIZE
      requires r.Wf() && r.payload == buf[..len] && Total(view.recs) + Size(r) <= size
      requires hdr != mem && hdr.Length == HDR_SIZE && hdr[..] == Header(LOG_TAG_FREE, r)
      modifies this, mem
      ensures Valid() && view == Appended(old(view), r)
      ensures mem[..] == Put(old(mem[..]), size, Index(size, HeadOf(old(view))), Encode(r))
    {
      ghost var v, b := view, mem[..];
      AppendReady(b, v, r);
      var start := head;
      head := Wrap(head + AlignUp8(HDR_SIZE + len));
      WriteEncoded(start, hdr, buf, len, r);
      dirty := true;
      sum := Wrap(sum + 1);
      view := Appended(v, r);
    }

    method WriteEncoded(start: nat, hdr: array<Byte>, buf: array<Byte>, len: nat, ghost r: Record)
      requires SizeOk(size) && mem.Length >= size && start < U32 && start % 8 == 0
      requires hdr != mem && hdr.Length == HDR_SIZE && buf != mem && 1 <= len <= MAX_DATA_SIZE <= buf.Length
      requires r.Wf() && r.payload == buf[..len] && hdr[..] == Header(LOG_TAG_FREE, r)
      modifies mem
      ensures mem[..] == Put(old(mem[..]), size, Index(size, start), Encode(r))
    {
      SealedIsEncoded(r);
      WriteRecord(start, hdr, buf, len);
    }

    static method FillHeader(hdr: array<Byte>, ghost r: Record, lvl: Byte, dom: Byte, ent: Byte, len: Byte, pad: Byte,
                             ts: nat)
      requires hdr.Length == HDR_SIZE && r.Wf() && len == |r.payload| && pad == Pad(r)
      requires r.lvl == lvl && r.dom == dom && r.ent == ent && r.ts == ts
      modifies hdr
      ensures hdr[..] == Header(LOG_TAG_FREE, r)
    {
      var tsHigh, tsLow := ts / U32, ts % U32;
      hdr[0], hdr[1], hdr[2], hdr[3], hdr[4], hdr[5] := LOG_TAG_FREE, lvl, dom, ent, len, pad;
      hdr[6], hdr[7] := tsHigh % 256, tsHigh / 256 % 256;
      hdr[8], hdr[9], hdr[10], hdr[11] :=
        tsLow % 256, tsLow / 256 % 256, tsLow / 256 / 256 % 256, tsLow / 256 / 256 / 256 % 256;
      assert hdr[6..8] == Le(tsHigh, 2);
      assert hdr[10..12] == Le(tsLow / 256 / 256, 2);
      assert hdr[8..12] == Le(tsLow, 4);
    }

    // The record at the tail as the writer callback sees it, and its size.
    method ReadRecord() returns (d: Delivered, n: nat)
      requires Valid() && view.recs != []
      ensures n == Size(view.recs[0]) && d == DeliverOne(view)
    {
      IndexWrap(size, view.tail);
      StoredHeader(mem[..], size, Index(size, tail), view.recs);
      var hdr := new Byte[HDR_SIZE];
      ReadHeader(tail, hdr);
      assert hdr[..] == Encode(view.recs[0])[..HDR_SIZE];
      HeaderDecodes(hdr[..], view.recs[0]);
      var len := hdr[4] as nat;
      var text := ReadText(len);
      d := Delivered(hdr[2], hdr[3], hdr[1], TsOf(hdr[..]), text);
      n := HDR_SIZE + len + hdr[5] as nat;
    }

    // The first four bytes are read behind the header without masking the index.
    method ReadText(len: nat) returns (text: seq<Byte>)
      requires Valid() && view.recs != [] && len == |view.recs[0].payload|
      ensures text == Text(size, Index(size, view.tail), view.recs[0].payload)
    {
      IndexWrap(size, view.tail);
      RoomBehind(size, view.tail);
      FirstWord(mem[..], size, Index(size, tail), view.recs);
      StoredPayload(mem[..], size, Index(size, tail), view.recs);
      var msg := new Byte[MAX_DATA_SIZE + 5];
      Store(msg, 0, mem, Index(size, tail) + HDR_SIZE, 4);
      if len > 4 {
        CopyRest(msg, len);
      }
      msg[len] := 0;
      text := msg[..len];
    }

    method CopyRest(msg: array<Byte>, len: nat)
      requires SizeOk(size) && mem.Length >= size && tail < U32 && 4 < len <= MAX_DATA_SIZE < msg.Length && msg != mem
      modifies msg
      ensures forall i :: 0 <= i < 4 ==> msg[i] == old(msg[i])
      ensures forall i :: 4 <= i < len ==> msg[i] == mem[At(size, Index(size, tail), HDR_SIZE + i)]
    {
      ghost var h := Index(size, tail);
      IndexAdd(size, tail, HDR_SIZE + 4);
      CopyFromRing(msg, 4, Wrap(tail + HDR_SIZE + 4), len - 4);
      forall i | 4 <= i < len
        ensures msg[i] == mem[At(size, h, HDR_SIZE + i)]
      {
        assert msg[4 + (i - 4)] == mem[At(size, At(size, h, HDR_SIZE + 4), i - 4)];
      }
    }

    // Hands the records to the writer, if there is one, oldest first, and frees them.
    method Flush(hasWriter: bool) returns (out: seq<Delivered>)
      requires Valid()
      modifies this, mem
      ensures Valid() && view == Flushed(old(view))
      ensures mem[..] == if InOrder(old(view)) then Unsealed(old(mem[..]), size, old(view).tail, old(view).recs)
                         else old(mem[..])
      ensures out == if hasWriter then FlushOut(old(view)) else []
    {
      ghost var v, b := view, mem[..];
      DrainStart(v, hasWriter);
      var h := head;
      out := [];
      while tail < h
        invariant Valid() && h == Wrap(HeadOf(v)) && Draining(v, view, out, hasWriter)
        invariant Unsealed(mem[..], size, view.tail, view.recs) == Unsealed(b, size, v.tail, v.recs)
        invariant !InOrder(v) ==> mem[..] == b
        decreases |view.recs|
      {
        DrainStep(v, view, out, hasWriter);
        var d := TakeOldest();
        if hasWriter {
          out := out + [d];
        }
      }
      DrainEnd(v, view, out, hasWriter);
      assert InOrder(v) ==> view.recs == [];
      dirty, view := false, view.(dirty := false);
    }

    // One turn of the flush loop.
    method TakeOldest() returns (d: Delivered)
      requires Valid() && view.recs != []
      modifies mem, this`tail, this`view
      ensures Valid() && view == Freed(old(view)) && d == DeliverOne(old(view))
      ensures Unsealed(mem[..], size, view.tail, view.recs)
              == Unsealed(old(mem[..]), size, old(view).tail, old(view).recs)
    {
      var n: nat;
      d, n := ReadRecord();
      FreeOldest(n);
    }

    // Unseals the record at the tail and moves the tail past it.
    method FreeOldest(n: nat)
      requires Valid() && view.recs != [] && n == Size(view.recs[0])
      modifies mem, this`tail, this`view
      ensures Valid() && view == Freed(old(view))
      ensures mem[..] == old(mem[..])[Index(size, old(view).tail) := LOG_TAG_FREE]
    {
      ghost var b := mem[..];
      IndexWrap(size, view.tail);
      ConsumeImage(b, view);
      FreedOk(view);
      WrapAdd(view.tail, n);
      mem[Index(size, tail)] := LOG_TAG_FREE;
      assert mem[..] == b[Index(size, tail) := LOG_TAG_FREE];
      tail, view := Wrap(tail + n), Freed(view);
    }

    method GetStats() returns (s: nat, d: nat)
      requires Valid()
      ensures s == Wrap(view.sum) && d == Wrap(view.drops)
    {
      s, d := sum, dropCnt;
    }
  }
}
