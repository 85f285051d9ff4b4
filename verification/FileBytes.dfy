/** A file as one sequence of bytes: what readi, writei and itrunc do to it.  The sequence is what the
inode shows below its size; behind the size every block shows zeros, so that a write behind the
end leaves a hole of zeros. */
module FileBytes {
  import opened Types
  import opened FsTree
  import opened FsVolume

  /** writei's size rule. */
  function GrownSize(size: uint, off: uint, n: uint): uint
    requires off + n < UINT
  {
    if n > 0 && off + n > size then off + n else size
  }

  /** Behind its size, every inode shows zeros. */
  ghost predicate ZeroTail(v: Volume, size: map<nat, uint>) {
    forall i, k: nat :: i in size && size[i] <= k < MAXBYTES ==> ByteAt(v, i, k) == 0
  }

  function Contents(v: Volume, size: map<nat, uint>, ino: nat): seq<Byte>
    requires ino in size && size[ino] <= MAXBYTES
  {
    Bytes(v, ino, 0, size[ino])
  }

  function Zeros(n: nat): seq<Byte> { seq(n, i => 0) }

  /** The bytes from off replaced, after padding with zeros if the file is shorter than off. */
  function WriteSeq(c: seq<Byte>, off: nat, src: seq<Byte>): seq<Byte> {
    if src == [] then c
    else if off > |c| then c + Zeros(off - |c|) + src
    else if off + |src| >= |c| then c[..off] + src
    else c[..off] + src + c[off + |src|..]
  }

  /** At most n bytes from off. */
  function ReadSeq(c: seq<Byte>, off: nat, n: nat): seq<Byte>
    requires off <= |c|
  {
    if off + n > |c| then c[off..] else c[off..off + n]
  }

  /** A write to the volume is a write to the one file's sequence, holes included. */
  lemma WriteIsWrite(v: Volume, v': Volume, size: map<nat, uint>, ino: nat, off: nat, src: seq<Byte>)
    requires ino in size && size[ino] <= MAXBYTES && ZeroTail(v, size) && Written(v, v', ino, off, src)
    requires off + |src| < UINT && (src != [] ==> off + |src| <= MAXBYTES)
    ensures var size' := size[ino := GrownSize(size[ino], off, |src|)];
      && Contents(v', size', ino) == WriteSeq(Contents(v, size, ino), off, src)
      && ZeroTail(v', size')
  {
    hide ByteAt;
    var size' := size[ino := GrownSize(size[ino], off, |src|)];
    var c, w := Contents(v', size', ino), WriteSeq(Contents(v, size, ino), off, src);
    assert |c| == |w|;
    forall k | 0 <= k < |c| ensures c[k] == w[k] {
      assert c[k] == ByteAt(v', ino, k);
      assert k < size[ino] ==> Contents(v, size, ino)[k] == ByteAt(v, ino, k);
    }
  }

  /** The other files stay. */
  ghost predicate OthersSame(v: Volume, v': Volume, size: map<nat, uint>, ino: nat) {
    forall i :: i in size && i != ino && size[i] <= MAXBYTES ==> Contents(v', size, i) == Contents(v, size, i)
  }

  lemma WriteKeepsOthers(v: Volume, v': Volume, size: map<nat, uint>, ino: nat, off: nat, src: seq<Byte>)
    requires Written(v, v', ino, off, src)
    ensures OthersSame(v, v', size, ino)
  {
    hide ByteAt;
  }

  /** A read that only allocates leaves every file as it is, and gives the bytes of the sequence. */
  lemma ReadIsRead(v: Volume, v': Volume, size: map<nat, uint>, ino: nat, off: nat, n: nat, off': nat)
    requires ino in size && size[ino] <= MAXBYTES && off <= size[ino] && Written(v, v', ino, off', [])
    ensures var m := if off + n > size[ino] then size[ino] - off else n;
      Bytes(v, ino, off, m) == ReadSeq(Contents(v, size, ino), off, n)
    ensures Contents(v', size, ino) == Contents(v, size, ino) && OthersSame(v, v', size, ino)
    ensures ZeroTail(v, size) ==> ZeroTail(v', size)
  {
    hide ByteAt;
  }

  /** An inode that shows zeros only, with size 0, is the empty file. */
  lemma TruncIsEmpty(v: Volume, v': Volume, size: map<nat, uint>, ino: nat)
    requires ino in size && forall i, k: nat :: k < MAXBYTES ==> ByteAt(v', i, k) == if i == ino then 0 else ByteAt(v, i, k)
    ensures Contents(v', size[ino := 0], ino) == [] && OthersSame(v, v', size, ino)
    ensures ZeroTail(v, size) ==> ZeroTail(v', size[ino := 0])
  {
    hide ByteAt;
  }

  /** Emptying one inode's tree empties its file and no other. */
  lemma TruncatedFile(v: Volume, v': Volume, size: map<nat, uint>, ino: nat)
    requires ino in size && v'.data == v.data && v'.t.addrs.Keys == v.t.addrs.Keys
    requires forall u :: ValidSlot(v.t, u) ==> Ptr(v'.t, u) == if u.ino == ino then 0 else Ptr(v.t, u)
    ensures Contents(v', size[ino := 0], ino) == [] && OthersSame(v, v', size, ino)
    ensures ZeroTail(v, size) ==> ZeroTail(v', size[ino := 0])
  {
    forall i, k: nat | k < MAXBYTES ensures ByteAt(v', i, k) == if i == ino then 0 else ByteAt(v, i, k) {
      TruncatedBytes(v, v', ino, i, k);
    }
    TruncIsEmpty(v, v', size, ino);
  }

  /** Two writes end to end are one: the chunks of filewrite add up to one write. */
  lemma ChunksAddUp(c: seq<Byte>, off: nat, a: seq<Byte>, b: seq<Byte>)
    ensures WriteSeq(WriteSeq(c, off, a), off + |a|, b) == WriteSeq(c, off, a + b)
  {
    if a == [] {
      assert a + b == b;
    } else if b == [] {
      assert a + b == a;
    } else {
      var l, r := WriteSeq(WriteSeq(c, off, a), off + |a|, b), WriteSeq(c, off, a + b);
      assert |l| == |r|;
      assert forall k :: 0 <= k < |l| ==> l[k] == r[k];
    }
  }

  /** What was written is what is read, whatever the file held before. */
  lemma ReadAfterWrite(c: seq<Byte>, off: nat, src: seq<Byte>)
    requires src != []
    ensures ReadSeq(WriteSeq(c, off, src), off, |src|) == src
    ensures forall k :: |c| <= k < off ==> WriteSeq(c, off, src)[k] == 0
  {
  }
}
