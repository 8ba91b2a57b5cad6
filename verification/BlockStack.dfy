/** /dev/hda from the byte interface down to the drive: the read-modify-write
    loops of kernel/devfs.c over the block layer of kernel/blockdev.c over the
    chunked 28-bit commands of kernel/ata.c. The drive is an abstract array of
    sectors that executes whatever its registers say, so the register encoding
    is part of what is proved. Transfers may fail: `fault` says for each command
    how many sectors went through before it failed. */
module BlockStack {
  import opened Bytes

  const SECTOR: nat := 512
  const LBA28_MAX: nat := 0x0FFF_FFFF
  const CHUNK_MAX: nat := 256

  /** `s` with `piece` written at `at`. */
  function Splice<T>(s: seq<T>, at: nat, piece: seq<T>): (r: seq<T>)
    requires at + |piece| <= |s|
    ensures |r| == |s|
  {
    s[..at] + piece + s[at + |piece|..]
  }

  /** `r` is the splice when it agrees cell by cell. */
  lemma IsSplice<T>(s: seq<T>, at: nat, piece: seq<T>, r: seq<T>)
    requires at + |piece| <= |s| == |r|
    requires forall i :: 0 <= i < at ==> r[i] == s[i]
    requires forall i :: 0 <= i < |piece| ==> r[at + i] == piece[i]
    requires forall i :: at + |piece| <= i < |s| ==> r[i] == s[i]
    ensures r == Splice(s, at, piece)
  {
  }

  lemma SpliceTwice<T>(s: seq<T>, at: nat, x: seq<T>, y: seq<T>)
    requires at + |x| + |y| <= |s|
    ensures Splice(Splice(s, at, x), at + |x|, y) == Splice(s, at, x + y)
  {
    var t := Splice(s, at, x);
    assert t[..at + |x|] == s[..at] + x;
    assert t[at + |x| + |y|..] == s[at + |x| + |y|..];
  }

  lemma SpliceNothing<T>(s: seq<T>, at: nat, src: seq<T>, a: nat)
    requires at <= |s| && a <= |src|
    ensures Splice(s, at, src[a..a]) == s
  {
  }

  /** Writing two adjacent pieces of `src` is writing them together. */
  lemma SpliceGrow<T>(s: seq<T>, at: nat, src: seq<T>, a: nat, b: nat, c: nat)
    requires a <= b <= c <= |src| && at + (c - a) <= |s|
    ensures Splice(Splice(s, at, src[a..b]), at + (b - a), src[b..c]) == Splice(s, at, src[a..c])
  {
    SpliceTwice(s, at, src[a..b], src[b..c]);
    assert src[a..b] + src[b..c] == src[a..c];
  }

  // ---- the drive --------------------------------------------------------

  /** The task-file registers of one READ/WRITE SECTORS command. */
  datatype Regs = Regs(drive: Byte, count: Byte, lo: Byte, mid: Byte, hi: Byte)

  datatype Command = Command(write: bool, lba: nat, count: nat)

  datatype Fault = None | After(sectors: nat)

  /** ata_setup_cmd: LBA mode and the top four bits in the drive register. */
  function Encode(lba: nat, count: nat): Regs {
    Regs(0xE0 + lba / 0x100_0000 % 16, count % 256, lba % 256, lba / 256 % 256, lba / 0x1_0000 % 256)
  }

  /** How a drive reads them: 28 address bits, and a count of 0 means 256. */
  function DecodeLba(r: Regs): nat {
    r.drive % 16 * 0x100_0000 + r.hi * 0x1_0000 + r.mid * 256 + r.lo
  }

  /** The drive register selects the first drive, with an address in LBA form and the
      two bits set that older drives insist on. */
  predicate Selects(r: Regs) {
    r.drive / 128 == 1 && r.drive / 64 % 2 == 1 && r.drive / 32 % 2 == 1 && r.drive / 16 % 2 == 0
  }

  function DecodeCount(r: Regs): nat { if r.count == 0 then 256 else r.count }

  /** The drive does what was asked exactly when the address fits 28 bits. */
  lemma RegistersRoundTrip(lba: nat, count: nat)
    requires 1 <= count <= CHUNK_MAX
    ensures var r := Encode(lba, if count == 256 then 0 else count);
            Selects(r) && DecodeCount(r) == count && (DecodeLba(r) == lba <==> lba <= LBA28_MAX)
  {
    var a := lba / 256;
    var b := a / 256;
    var c := b / 256;
    assert lba == 256 * a + lba % 256 && a == 256 * b + a % 256 && b == 256 * c + b % 256;
    assert lba / 0x1_0000 == b && lba / 0x100_0000 == c;
    assert (0xE0 + c % 16) % 16 == c % 16;
    assert DecodeLba(Encode(lba, if count == 256 then 0 else count))
        == c % 16 * 0x100_0000 + b % 256 * 0x1_0000 + a % 256 * 256 + lba % 256;
    assert c % 16 == c <==> c < 16;
  }

  class Drive {
    const data: array<Byte>
    const fault: nat -> Fault
    var issued: seq<Command>        // every command executed, as decoded

    constructor (data: array<Byte>, fault: nat -> Fault)
      ensures this.data == data && this.fault == fault && issued == []
    {
      this.data, this.fault, issued := data, fault, [];
    }

    /** Sectors moved by command number `k` of `count` sectors. */
    function Moved(k: nat, count: nat): (m: nat)
      ensures m <= count
    {
      match fault(k)
      case None => count
      case After(n) => if n < count then n else count
    }

    /** Execute the command in the registers, moving sectors between the disk
        and `buf` from byte `off` on. */
    method Execute(r: Regs, write: bool, buf: array<Byte>, off: nat) returns (ok: bool)
      requires Selects(r) && buf != data
      requires (DecodeLba(r) + DecodeCount(r)) * SECTOR <= data.Length
      requires off + DecodeCount(r) * SECTOR <= buf.Length
      modifies this`issued, data, buf
      ensures issued == old(issued) + [Command(write, DecodeLba(r), DecodeCount(r))]
      ensures ok <==> fault(|old(issued)|) == None
      ensures var m := Moved(|old(issued)|, DecodeCount(r)) * SECTOR;
              var at := DecodeLba(r) * SECTOR;
              if write
              then data[..] == Splice(old(data[..]), at, old(buf[off..off + m])) && buf[..] == old(buf[..])
              else buf[..] == Splice(old(buf[..]), off, old(data[at..at + m])) && data[..] == old(data[..])
    {
      hide Splice, DecodeLba, DecodeCount;
      var lba, count := DecodeLba(r), DecodeCount(r);
      var m := Moved(|issued|, count) * SECTOR;
      ok := fault(|issued|) == None;
      issued := issued + [Command(write, lba, count)];
      if write {
        Copy(buf, off, data, lba * SECTOR, m);
      } else {
        Copy(data, lba * SECTOR, buf, off, m);
      }
    }

    static method Copy(src: array<Byte>, from: nat, dst: array<Byte>, to: nat, m: nat)
      requires src != dst && from + m <= src.Length && to + m <= dst.Length
      modifies dst
      ensures dst[..] == Splice(old(dst[..]), to, src[from..from + m])
    {
      forall i | 0 <= i < m {
        dst[to + i] := src[from + i];
      }
      IsSplice(old(dst[..]), to, src[from..from + m], dst[..]);
    }
  }

  // ---- the ATA driver ---------------------------------------------------

  /** The commands of a transfer, in order. */
  function Chunks(write: bool, lba: nat, count: nat): seq<Command>
    decreases count
  {
    if count == 0 then []
    else
      var c := if count > CHUNK_MAX then CHUNK_MAX else count;
      [Command(write, lba, c)] + Chunks(write, lba + c, count - c)
  }

  /** The chunks cover the requested sectors exactly, in order and without
      overlap, each within 28 bits and 256 sectors. */
  lemma {:induction false} ChunksCover(write: bool, lba: nat, count: nat)
    requires lba + count <= LBA28_MAX
    ensures var cs := Chunks(write, lba, count);
            && (forall i :: 0 <= i < |cs| ==> cs[i].write == write && 1 <= cs[i].count <= CHUNK_MAX
                                              && cs[i].lba + cs[i].count - 1 <= LBA28_MAX)
            && (forall i, j :: 0 <= i && j == i + 1 < |cs| ==> cs[j].lba == cs[i].lba + cs[i].count)
            && (count > 0 ==> cs != [] && cs[0].lba == lba
                              && cs[|cs| - 1].lba + cs[|cs| - 1].count == lba + count)
    decreases count
  {
    if count > 0 {
      var c := if count > CHUNK_MAX then CHUNK_MAX else count;
      ChunksCover(write, lba + c, count - c);
    }
  }

  /** What a transfer that moved `n` bytes did: `n` bytes of the buffer are on
      the disk (or the other way round), nothing else changed. */
  ghost predicate Transferred(write: bool, disk: seq<Byte>, disk': seq<Byte>, at: nat,
                              buf: seq<Byte>, buf': seq<Byte>, off: nat, n: nat)
  {
    && at + n <= |disk| && off + n <= |buf|
    && if write then disk' == Splice(disk, at, buf[off..off + n]) && buf' == buf
       else buf' == Splice(buf, off, disk[at..at + n]) && disk' == disk
  }

  /** A transfer that stays below `size` is one of the first `size` bytes. */
  lemma TransferWithin(write: bool, disk: seq<Byte>, disk': seq<Byte>, at: nat, buf: seq<Byte>, buf': seq<Byte>,
                       n: nat, size: nat)
    requires Transferred(write, disk, disk', at, buf, buf', 0, n) && at + n <= size <= |disk|
    ensures |disk'| == |disk| && Transferred(write, disk[..size], disk'[..size], at, buf, buf', 0, n)
    ensures n == 0 ==> disk' == disk && buf' == buf
  {
    assert disk[..size][at..at + n] == disk[at..at + n];
    if write {
      assert Splice(disk, at, buf[0..n])[..size] == Splice(disk[..size], at, buf[0..n]);
    }
  }

  lemma TransferNone(write: bool, disk: seq<Byte>, at: nat, buf: seq<Byte>, off: nat)
    requires at <= |disk| && off <= |buf|
    ensures Transferred(write, disk, disk, at, buf, buf, off, 0)
  {
  }

  lemma TransferMore(write: bool, d0: seq<Byte>, d1: seq<Byte>, d2: seq<Byte>, at: nat,
                     b0: seq<Byte>, b1: seq<Byte>, b2: seq<Byte>, off: nat, m: nat, n: nat)
    requires Transferred(write, d0, d1, at, b0, b1, off, m)
    requires Transferred(write, d1, d2, at + m, b1, b2, off + m, n)
    ensures Transferred(write, d0, d2, at, b0, b2, off, m + n)
  {
    hide Splice;
    if write {
      SpliceGrow(d0, at, b0, off, off + m, off + m + n);
    } else {
      SpliceGrow(b0, off, d0, at, at + m, at + m + n);
    }
  }

  /** The drive as block device hda. */
  class Disk {
    const drive: Drive
    const blocks: nat

    ghost predicate Valid()
      reads drive
    {
      blocks <= LBA28_MAX && blocks * SECTOR <= drive.data.Length
    }

    /** ata_init: a drive that claims more sectors than 28 bits can address is
        clamped, not trusted. */
    constructor (drive: Drive, sectors: nat)
      requires sectors * SECTOR <= drive.data.Length
      ensures Valid() && this.drive == drive
      ensures blocks == if sectors > LBA28_MAX then LBA28_MAX else sectors
    {
      this.drive := drive;
      blocks := if sectors > LBA28_MAX then LBA28_MAX else sectors;
    }

    /** The bytes a reader of the device sees. */
    ghost function Contents(): (s: seq<Byte>)
      requires Valid()
      reads drive, drive.data
      ensures |s| == blocks * SECTOR
    {
      drive.data[..blocks * SECTOR]
    }

    /** One command of at most 256 sectors; a count of 256 is sent as 0. */
    method RwChunk(lba: nat, count: nat, buf: array<Byte>, off: nat, write: bool) returns (ok: bool, ghost n: nat)
      requires 1 <= count <= CHUNK_MAX && lba <= LBA28_MAX
      requires (lba + count) * SECTOR <= drive.data.Length && off + count * SECTOR <= buf.Length
      requires buf != drive.data
      modifies drive`issued, drive.data, buf
      ensures drive.issued == old(drive.issued) + [Command(write, lba, count)]
      ensures n <= count && (ok ==> n == count)
      ensures ok <==> drive.fault(|old(drive.issued)|) == None
      ensures Transferred(write, old(drive.data[..]), drive.data[..], lba * SECTOR,
                          old(buf[..]), buf[..], off, n * SECTOR)
    {
      hide Encode, DecodeLba, DecodeCount, Selects, Splice;
      var c := if count == 256 then 0 else count;
      RegistersRoundTrip(lba, count);
      n := drive.Moved(|drive.issued|, count);
      ok := drive.Execute(Encode(lba, c), write, buf, off);
    }

    /** ata_rw: the transfer in chunks. */
    method Rw(lba: nat, count: nat, buf: array<Byte>, off: nat, write: bool) returns (ok: bool, ghost n: nat)
      requires lba + count <= LBA28_MAX
      requires (lba + count) * SECTOR <= drive.data.Length && off + count * SECTOR <= buf.Length
      requires buf != drive.data
      modifies drive`issued, drive.data, buf
      ensures n <= count && (ok ==> n == count)
      ensures Transferred(write, old(drive.data[..]), drive.data[..], lba * SECTOR,
                          old(buf[..]), buf[..], off, n * SECTOR)
      ensures ok ==> drive.issued == old(drive.issued) + Chunks(write, lba, count)
      ensures (forall k :: k >= |old(drive.issued)| ==> drive.fault(k) == None) ==> ok
      ensures |drive.issued| >= |old(drive.issued)|
    {
      hide Transferred;
      var at, left, p := lba, count, off;
      n := 0;
      TransferNone(write, drive.data[..], lba * SECTOR, buf[..], off);
      while left > 0
        invariant 0 <= left <= count && n == count - left && at == lba + n && p == off + n * SECTOR
        invariant Transferred(write, old(drive.data[..]), drive.data[..], lba * SECTOR,
                              old(buf[..]), buf[..], off, n * SECTOR)
        invariant drive.issued + Chunks(write, at, left) == old(drive.issued) + Chunks(write, lba, count)
        invariant |drive.issued| >= |old(drive.issued)|
      {
        var chunk := if left > CHUNK_MAX then CHUNK_MAX else left;
        ghost var d, b, m := drive.data[..], buf[..], 0;
        ghost var log := drive.issued;
        ok, m := RwChunk(at, chunk, buf, p, write);
        TransferMore(write, old(drive.data[..]), d, drive.data[..], lba * SECTOR,
                     old(buf[..]), b, buf[..], off, n * SECTOR, m * SECTOR);
        n := n + m;
        if !ok {
          return;
        }
        assert Chunks(write, at, left) == [Command(write, at, chunk)] + Chunks(write, at + chunk, left - chunk);
        assert log + ([Command(write, at, chunk)] + Chunks(write, at + chunk, left - chunk))
            == drive.issued + Chunks(write, at + chunk, left - chunk);
        at, left, p := at + chunk, left - chunk, p + chunk * SECTOR;
      }
      ok := true;
    }

    /** range_ok of the block layer. */
    predicate RangeOk(lba: nat, count: nat) {
      count == 0 || (lba < blocks && count <= blocks - lba)
    }

    /** blockdev_read and blockdev_write, with the driver's own 28-bit check. */
    method Blockdev(lba: nat, count: nat, buf: array<Byte>, write: bool) returns (ok: bool, ghost n: nat)
      requires Valid() && count * SECTOR <= buf.Length && buf != drive.data
      modifies drive`issued, drive.data, buf
      ensures Valid() && n <= count && (ok ==> n == count)
      ensures !RangeOk(lba, count) ==> !ok && n == 0
      ensures RangeOk(lba, count) ==> (lba + n) * SECTOR <= |old(Contents())| || n == 0
      ensures n > 0 ==> Transferred(write, old(Contents()), Contents(), lba * SECTOR,
                                    old(buf[..]), buf[..], 0, n * SECTOR)
      ensures n == 0 ==> Contents() == old(Contents()) && buf[..] == old(buf[..])
      ensures RangeOk(lba, count) && (forall k :: k >= |old(drive.issued)| ==> drive.fault(k) == None) ==> ok
      ensures |drive.issued| >= |old(drive.issued)|
    {
      hide Transferred;
      n := 0;
      if !RangeOk(lba, count) {
        return false, 0;
      }
      if count == 0 {
        return true, 0;
      }
      if lba > LBA28_MAX || count > LBA28_MAX - lba {
        return false, 0;
      }
      ok, n := Rw(lba, count, buf, 0, write);
      ghost var size := blocks * SECTOR;
      assert Contents() == drive.data[..][..size] && old(Contents()) == old(drive.data[..])[..size];
      TransferWithin(write, old(drive.data[..]), drive.data[..], lba * SECTOR, old(buf[..]), buf[..], n * SECTOR, size);
    }
  }

  // ---- the byte interface -----------------------------------------------

  const POS_MOD: nat := 0x1_0000_0000       // the file position is 32 bits wide

  function Min(a: nat, b: nat): nat { if a < b then a else b }

  lemma SliceOfSlice(s: seq<Byte>, a: nat, b: nat, i: nat, j: nat)
    requires a <= b <= |s| && i <= j <= b - a
    ensures s[a..b][i..j] == s[a + i..a + j]
  {
    var x, y := s[a..b][i..j], s[a + i..a + j];
    forall k | 0 <= k < |x|
      ensures x[k] == y[k]
    {
      assert x[k] == s[a..b][i + k];
    }
  }

  /** An open /dev/hda. */
  class DevFile {
    const disk: Disk
    const bounce: array<Byte>       // one block
    var pos: nat

    ghost predicate Valid()
      reads this, disk, disk.drive
    {
      && disk.Valid() && bounce.Length == SECTOR && bounce != disk.drive.data && pos < POS_MOD
    }

    constructor (disk: Disk)
      requires disk.Valid()
      ensures Valid() && this.disk == disk && pos == 0 && fresh(bounce)
    {
      this.disk := disk;
      bounce := new Byte[SECTOR](_ => 0);
      pos := 0;
    }

    /** Position, result and error of a transfer that got `done` of `k` bytes
        through: a short transfer leaves the position alone. */
    twostate predicate Outcome(k: nat, done: nat, r: int)
      reads this
    {
      && done <= k
      && (done == k ==> r == k && pos == (old(pos) + k) % POS_MOD)
      && (done < k ==> r == (if done == 0 then -1 else done) && pos == old(pos))
    }

    method Read(out: array<Byte>, n: nat) returns (r: int, ghost done: nat)
      requires Valid() && n <= out.Length
      requires out != bounce && out != disk.drive.data
      modifies this`pos, bounce, out, disk.drive`issued, disk.drive.data
      ensures Valid() && disk.Contents() == old(disk.Contents())
      ensures old(pos) >= |old(disk.Contents())| ==>
        r == 0 && done == 0 && out[..] == old(out[..]) && pos == old(pos)
      ensures old(pos) < |old(disk.Contents())| ==>
        && Outcome(Min(n, |old(disk.Contents())| - old(pos)), done, r)
        && out[..] == Splice(old(out[..]), 0, old(disk.Contents())[old(pos)..old(pos) + done])
      ensures (forall k :: k >= |old(disk.drive.issued)| ==> disk.drive.fault(k) == None) ==>
        old(pos) < |old(disk.Contents())| ==> done == Min(n, |old(disk.Contents())| - old(pos))
    {
      hide Splice;
      var size := disk.blocks * SECTOR;
      done := 0;
      if pos >= size {
        return 0, 0;
      }
      var k := Min(n, size - pos);
      var p, i := pos, 0;
      ghost var disk0, out0 := disk.Contents(), out[..];
      SpliceNothing(out0, 0, disk0, pos);
      while i < k
        invariant 0 <= i <= k && p == pos + i && Valid() && pos == old(pos)
        invariant disk.Contents() == disk0
        invariant out[..] == Splice(out0, 0, disk0[pos..p])
        invariant |disk.drive.issued| >= |old(disk.drive.issued)|
      {
        ghost var was := out[..];
        var ok, chunk := ReadStep(out, i, p, k - i);
        if !ok {
          return if i > 0 then i else -1, i;
        }
        SpliceGrow(out0, 0, disk0, pos, p, p + chunk);
        assert out[..] == Splice(was, i, disk0[p..p + chunk]);
        i := i + chunk;
        p := p + chunk;
      }
      done := k;
      pos := p % POS_MOD;
      r := i;
    }

    /** The part of one block that a read at byte `p` still wants. */
    method ReadStep(out: array<Byte>, i: nat, p: nat, left: nat) returns (ok: bool, chunk: nat)
      requires Valid() && 0 < left && p + left <= disk.blocks * SECTOR && i + left <= out.Length
      requires out != bounce && out != disk.drive.data
      modifies bounce, out, disk.drive`issued, disk.drive.data
      ensures Valid() && disk.Contents() == old(disk.Contents())
      ensures 0 < chunk <= left
      ensures out[..] == if ok then Splice(old(out[..]), i, disk.Contents()[p..p + chunk]) else old(out[..])
      ensures |disk.drive.issued| >= |old(disk.drive.issued)|
      ensures (forall k :: k >= |old(disk.drive.issued)| ==> disk.drive.fault(k) == None) ==> ok
    {
      var lba, off := p / SECTOR, p % SECTOR;
      chunk := Min(SECTOR - off, left);
      ok := FetchBlock(lba);
      if ok {
        SliceOfSlice(disk.Contents(), lba * SECTOR, (lba + 1) * SECTOR, off, off + chunk);
        ghost var piece := disk.Contents()[p..p + chunk];
        assert bounce[..][off..off + chunk] == piece;
        forall j | 0 <= j < chunk {
          out[i + j] := bounce[off + j];
        }
        IsSplice(old(out[..]), i, piece, out[..]);
      }
    }

    /** Read one block into the bounce buffer. */
    method FetchBlock(lba: nat) returns (ok: bool)
      requires Valid() && lba < disk.blocks
      modifies bounce, disk.drive`issued, disk.drive.data
      ensures Valid() && disk.Contents() == old(disk.Contents())
      ensures ok ==> bounce[..] == disk.Contents()[lba * SECTOR..(lba + 1) * SECTOR]
      ensures |disk.drive.issued| >= |old(disk.drive.issued)|
      ensures (forall k :: k >= |old(disk.drive.issued)| ==> disk.drive.fault(k) == None) ==> ok
    {
      ghost var n;
      ok, n := disk.Blockdev(lba, 1, bounce, false);
    }

    /** A write never touches a byte outside the range it reports, whether or
        not it completes. `moved` counts the bytes that reached the disk; a
        failing block may have gone through before the failure was reported. */
    method Write(data: array<Byte>, n: nat) returns (r: int, ghost done: nat, ghost moved: nat)
      requires Valid() && n <= data.Length
      requires data != bounce && data != disk.drive.data
      modifies this`pos, bounce, disk.drive`issued, disk.drive.data
      ensures Valid()
      ensures old(pos) >= |old(disk.Contents())| ==>
        r == -1 && done == moved == 0 && disk.Contents() == old(disk.Contents()) && pos == old(pos)
      ensures old(pos) < |old(disk.Contents())| ==>
        && Outcome(Min(n, |old(disk.Contents())| - old(pos)), done, r)
        && done <= moved <= Min(n, |old(disk.Contents())| - old(pos))
        && moved <= done + SECTOR
        && disk.Contents() == Splice(old(disk.Contents()), old(pos), data[0..moved])
      ensures (forall k :: k >= |old(disk.drive.issued)| ==> disk.drive.fault(k) == None) ==>
        old(pos) < |old(disk.Contents())| ==> done == Min(n, |old(disk.Contents())| - old(pos))
    {
      hide Splice;
      var size := disk.blocks * SECTOR;
      done, moved := 0, 0;
      if pos >= size {
        return -1, 0, 0;
      }
      var k := Min(n, size - pos);
      var p, i := pos, 0;
      ghost var disk0 := disk.Contents();
      SpliceNothing(disk0, pos, data[..], 0);
      while i < k
        invariant 0 <= i <= k && p == pos + i && Valid() && pos == old(pos)
        invariant disk.Contents() == Splice(disk0, pos, data[0..i])
        invariant |disk.drive.issued| >= |old(disk.drive.issued)|
      {
        ghost var was, m := disk.Contents(), 0;
        var ok, chunk;
        ok, chunk, m := WriteStep(data, i, p, k - i);
        SpliceGrow(disk0, pos, data[..], 0, i, i + m);
        assert data[..][0..i] == data[0..i] && data[..][i..i + m] == data[i..i + m];
        assert data[..][0..i + m] == data[0..i + m];
        if !ok {
          return if i > 0 then i else -1, i, i + m;
        }
        i := i + chunk;
        p := p + chunk;
      }
      done, moved := k, k;
      pos := p % POS_MOD;
      r := i;
    }

    /** Patch the part of one block that a write at byte `p` covers. A partial
        block is read back first. */
    method WriteStep(data: array<Byte>, i: nat, p: nat, left: nat) returns (ok: bool, chunk: nat, ghost m: nat)
      requires Valid() && 0 < left && p + left <= disk.blocks * SECTOR && i + left <= data.Length
      requires data != bounce && data != disk.drive.data
      modifies bounce, disk.drive`issued, disk.drive.data
      ensures Valid() && 0 < chunk <= left && chunk <= SECTOR
      ensures (ok ==> m == chunk) && (m == 0 || m == chunk)
      ensures disk.Contents() == Splice(old(disk.Contents()), p, data[i..i + m])
      ensures |disk.drive.issued| >= |old(disk.drive.issued)|
      ensures (forall k :: k >= |old(disk.drive.issued)| ==> disk.drive.fault(k) == None) ==> ok
    {
      var lba, off := p / SECTOR, p % SECTOR;
      chunk := Min(SECTOR - off, left);
      m := 0;
      SpliceNothing(disk.Contents(), p, data[..], i);
      assert data[..][i..i] == data[i..i];
      ok := true;
      if chunk < SECTOR {
        ok := FetchBlock(lba);
        if !ok {
          return;
        }
      }
      ok, m := PatchBlock(data, i, lba, off, chunk);
    }

    /** Overlay the bounce buffer and write it out. */
    method PatchBlock(data: array<Byte>, i: nat, lba: nat, off: nat, chunk: nat) returns (ok: bool, ghost m: nat)
      requires Valid() && lba < disk.blocks && 0 < chunk && off + chunk <= SECTOR && i + chunk <= data.Length
      requires data != bounce && data != disk.drive.data
      requires chunk == SECTOR || bounce[..] == disk.Contents()[lba * SECTOR..(lba + 1) * SECTOR]
      modifies bounce, disk.drive`issued, disk.drive.data
      ensures Valid() && (ok ==> m == chunk) && (m == 0 || m == chunk)
      ensures disk.Contents() == Splice(old(disk.Contents()), lba * SECTOR + off, data[i..i + m])
      ensures |disk.drive.issued| >= |old(disk.drive.issued)|
      ensures (forall k :: k >= |old(disk.drive.issued)| ==> disk.drive.fault(k) == None) ==> ok
    {
      hide Splice;
      ghost var was := disk.Contents();
      Overlay(data, i, off, chunk);
      ghost var block := bounce[..];
      PatchedBlock(was, lba * SECTOR, off, data[i..i + chunk], block);
      ghost var n;
      ok, n := disk.Blockdev(lba, 1, bounce, true);
      m := if n == 0 then 0 else chunk;
      if n == 0 {
        SpliceNothing(was, lba * SECTOR + off, data[..], i);
        assert data[..][i..i] == data[i..i + m];
      } else {
        assert block[0..0 + SECTOR] == block;
      }
    }

    method Overlay(data: array<Byte>, i: nat, off: nat, chunk: nat)
      requires bounce.Length == SECTOR && off + chunk <= SECTOR && i + chunk <= data.Length && data != bounce
      modifies bounce
      ensures forall j :: 0 <= j < SECTOR ==>
        bounce[j] == if off <= j < off + chunk then data[i + j - off] else old(bounce[j])
    {
      forall j | 0 <= j < chunk {
        bounce[off + j] := data[i + j];
      }
    }

    // ---- seeking --------------------------------------------------------

    /** seek_bounded: -1, or the new position, never past the end. */
    method Seek(off: int, whence: int) returns (r: int)
      requires Valid() && -0x8000_0000_0000_0000 <= off < 0x8000_0000_0000_0000
      modifies this`pos
      ensures Valid()
      ensures var base := if whence == 0 then 0 else if whence == 1 then old(pos) else disk.blocks * SECTOR;
              if 0 <= whence <= 2 && 0 <= base + off <= disk.blocks * SECTOR && base + off < POS_MOD
              then r == base + off == pos else r == -1 && pos == old(pos)
    {
      var end := disk.blocks * SECTOR;
      var base;
      if whence == 0 {
        base := 0;
      } else if whence == 1 {
        base := pos;
      } else if whence == 2 {
        base := end;
      } else {
        return -1;
      }
      if off > 0 && base > 0x7FFF_FFFF_FFFF_FFFF - off {
        return -1;
      }
      var p := base + off;
      if p < 0 || p > end || p > 0xFFFF_FFFF {
        return -1;
      }
      pos := p;
      return p;
    }
  }

  /** Write, seek back, read: the same bytes, wherever the write starts. The
      position must not wrap, which a device below 2^32 bytes guarantees. */
  method WriteSeekRead(f: DevFile, data: array<Byte>, out: array<Byte>, n: nat) returns (ok: bool)
    requires f.Valid() && n <= data.Length && n <= out.Length
    requires data != out && data != f.bounce && data != f.disk.drive.data
    requires out != f.bounce && out != f.disk.drive.data
    requires f.disk.blocks * SECTOR < POS_MOD && f.pos + n <= f.disk.blocks * SECTOR
    requires forall k: nat :: f.disk.drive.fault(k) == None
    modifies f`pos, f.bounce, out, f.disk.drive`issued, f.disk.drive.data
    ensures ok && out[..n] == data[..n] && f.pos == old(f.pos) + n
    ensures f.disk.Contents() == Splice(old(f.disk.Contents()), old(f.pos), data[0..n])
  {
    var start := f.pos;
    if n == 0 {
      SpliceNothing(f.disk.Contents(), start, data[..], 0);
      assert data[..][0..0] == data[0..0];
      return true;
    }
    ghost var was := f.disk.Contents();
    var w, r, s;
    ghost var done, moved;
    w, done, moved := f.Write(data, n);
    var back: int := n;
    s := f.Seek(-back, 1);
    assert f.pos == start;
    SpliceBack(was, start, data[0..n]);
    r, done := f.Read(out, n);
    SpliceBack(old(out[..]), 0, data[0..n]);
    assert out[..n] == out[..][0..n];
    ok := w == n && s == start && r == n;
  }

  lemma SpliceBack<T>(s: seq<T>, at: nat, piece: seq<T>)
    requires at + |piece| <= |s|
    ensures Splice(s, at, piece)[at..at + |piece|] == piece
  {
  }

  /** A block overlaid with `piece` and written back is the piece spliced into
      the flat array. */
  lemma PatchedBlock(s: seq<Byte>, a: nat, off: nat, piece: seq<Byte>, block: seq<Byte>)
    requires a + SECTOR <= |s| && |block| == SECTOR && off + |piece| <= SECTOR
    requires forall j :: 0 <= j < |piece| ==> block[off + j] == piece[j]
    requires |piece| < SECTOR ==> forall j :: 0 <= j < SECTOR && !(off <= j < off + |piece|) ==> block[j] == s[a + j]
    ensures Splice(s, a, block) == Splice(s, a + off, piece)
  {
    var r := Splice(s, a, block);
    forall j | 0 <= j < |piece|
      ensures r[a + off + j] == piece[j]
    {
      assert r[a + off + j] == block[off + j];
    }
    forall i | 0 <= i < |s| && !(a + off <= i < a + off + |piece|)
      ensures r[i] == s[i]
    {
      if a <= i < a + SECTOR {
        assert r[i] == block[i - a];
      }
    }
    IsSplice(s, a + off, piece, r);
  }
}
