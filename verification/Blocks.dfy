/** Memory blocks seen as values: the image of a list of blocks, and the bytes between two offsets. */
module Blocks {
  newtype byte = x: int | 0 <= x < 256

  const DEFAULT_SIZE: nat := 0x200000

  /** What a list of blocks holds, block by block. */
  ghost predicate IsImage(img: seq<seq<byte>>) {
    forall k :: 0 <= k < |img| ==> |img[k]| == DEFAULT_SIZE
  }

  /** The n bytes that start at offset lo, across block boundaries. */
  ghost function Bytes(img: seq<seq<byte>>, lo: nat, n: nat): (c: seq<byte>)
    requires IsImage(img) && lo + n <= |img| * DEFAULT_SIZE
    ensures |c| == n
  {
    seq(n, i requires 0 <= i < n => img[(lo + i) / DEFAULT_SIZE][(lo + i) % DEFAULT_SIZE])
  }

  ghost function ByteAt(img: seq<seq<byte>>, pos: nat): byte
    requires IsImage(img) && pos < |img| * DEFAULT_SIZE
  {
    img[pos / DEFAULT_SIZE][pos % DEFAULT_SIZE]
  }

  /** One byte stored at an offset. */
  ghost function Store(img: seq<seq<byte>>, pos: nat, v: byte): (r: seq<seq<byte>>)
    requires IsImage(img) && pos < |img| * DEFAULT_SIZE
    ensures |r| == |img| && IsImage(r)
  {
    var k := pos / DEFAULT_SIZE;
    img[k := img[k][pos % DEFAULT_SIZE := v]]
  }

  lemma StoreElsewhere(img: seq<seq<byte>>, pos: nat, v: byte, lo: nat, n: nat)
    requires IsImage(img) && pos < |img| * DEFAULT_SIZE && lo + n <= |img| * DEFAULT_SIZE
    requires pos < lo || lo + n <= pos
    ensures Bytes(Store(img, pos, v), lo, n) == Bytes(img, lo, n)
  {
  }

  lemma StoreAppends(img: seq<seq<byte>>, lo: nat, n: nat, v: byte)
    requires IsImage(img) && lo + n < |img| * DEFAULT_SIZE
    ensures Bytes(Store(img, lo + n, v), lo, n + 1) == Bytes(img, lo, n) + [v]
  {
  }

  lemma StorePrepends(img: seq<seq<byte>>, lo: nat, n: nat, v: byte)
    requires IsImage(img) && 0 < lo && lo + n <= |img| * DEFAULT_SIZE
    ensures Bytes(Store(img, lo - 1, v), lo - 1, n + 1) == [v] + Bytes(img, lo, n)
  {
  }

  lemma StoreInside(img: seq<seq<byte>>, lo: nat, n: nat, i: nat, v: byte)
    requires IsImage(img) && lo + n <= |img| * DEFAULT_SIZE && i < n
    ensures Bytes(Store(img, lo + i, v), lo, n) == Bytes(img, lo, n)[i := v]
  {
  }

  lemma BytesAt(img: seq<seq<byte>>, lo: nat, n: nat, i: nat)
    requires IsImage(img) && lo + n <= |img| * DEFAULT_SIZE && i < n
    ensures Bytes(img, lo, n)[i] == ByteAt(img, lo + i)
  {
  }

  lemma BytesNext(img: seq<seq<byte>>, lo: nat, n: nat)
    requires IsImage(img) && lo + n < |img| * DEFAULT_SIZE
    ensures Bytes(img, lo, n + 1) == Bytes(img, lo, n) + [ByteAt(img, lo + n)]
  {
  }

  lemma BytesFirst(img: seq<seq<byte>>, lo: nat, n: nat)
    requires IsImage(img) && lo + n <= |img| * DEFAULT_SIZE && 0 < n
    ensures Bytes(img, lo, n) == [ByteAt(img, lo)] + Bytes(img, lo + 1, n - 1)
  {
  }

  lemma BytesLast(img: seq<seq<byte>>, lo: nat, n: nat)
    requires IsImage(img) && lo + n <= |img| * DEFAULT_SIZE && 0 < n
    ensures Bytes(img, lo, n) == Bytes(img, lo, n - 1) + [ByteAt(img, lo + n - 1)]
  {
  }

  lemma BytesSlice(img: seq<seq<byte>>, lo: nat, n: nat, i: nat, k: nat)
    requires IsImage(img) && lo + n <= |img| * DEFAULT_SIZE && i + k <= n
    ensures Bytes(img, lo + i, k) == Bytes(img, lo, n)[i..i + k]
  {
  }

  lemma BytesSplit(img: seq<seq<byte>>, lo: nat, m: nat, n: nat)
    requires IsImage(img) && lo + m + n <= |img| * DEFAULT_SIZE
    ensures Bytes(img, lo, m + n) == Bytes(img, lo, m) + Bytes(img, lo + m, n)
  {
  }

  lemma BytesBlock(img: seq<seq<byte>>, k: nat)
    requires IsImage(img) && k < |img|
    ensures Bytes(img, k * DEFAULT_SIZE, DEFAULT_SIZE) == img[k]
  {
  }

  /** Bytes depend only on the blocks they lie in, and move with them. */
  lemma BytesShift(img: seq<seq<byte>>, img': seq<seq<byte>>, s: int, lo: nat, n: nat)
    requires IsImage(img) && lo + n <= |img| * DEFAULT_SIZE
    requires IsImage(img') && 0 <= lo + s * DEFAULT_SIZE && lo + s * DEFAULT_SIZE + n <= |img'| * DEFAULT_SIZE
    requires forall k :: 0 <= k < |img| && 0 <= k + s < |img'|
                         && lo < (k + 1) * DEFAULT_SIZE && k * DEFAULT_SIZE < lo + n
               ==> img'[k + s] == img[k]
    ensures Bytes(img', lo + s * DEFAULT_SIZE, n) == Bytes(img, lo, n)
  {
    var lo' := lo + s * DEFAULT_SIZE;
    forall i | 0 <= i < n ensures Bytes(img', lo', n)[i] == Bytes(img, lo, n)[i] {
      var k := (lo + i) / DEFAULT_SIZE;
      assert (lo' + i) / DEFAULT_SIZE == k + s;
      assert img'[k + s] == img[k];
    }
  }

  /** The blocks hold the image. */
  ghost predicate Shows(bs: seq<array<byte>>, img: seq<seq<byte>>)
    reads bs
  {
    && |img| == |bs|
    && IsImage(img)
    && forall k :: 0 <= k < |bs| ==> bs[k].Length == DEFAULT_SIZE && bs[k][..] == img[k]
  }

  /** Reads one byte through a cached block pointer. */
  method ReadByte(p: array<byte>, o: nat, ghost bs: seq<array<byte>>, ghost img: seq<seq<byte>>, ghost pos: nat)
      returns (v: byte)
    requires Shows(bs, img) && pos < |bs| * DEFAULT_SIZE && p == bs[pos / DEFAULT_SIZE] && o == pos % DEFAULT_SIZE
    ensures v == ByteAt(img, pos)
  {
    assert p[..] == img[pos / DEFAULT_SIZE];
    v := p[o];
  }

  /** Writes one byte through a cached block pointer; no other list of blocks sees it. */
  method WriteByte(p: array<byte>, o: nat, v: byte, ghost bs: seq<array<byte>>, ghost img: seq<seq<byte>>,
                   ghost pos: nat, ghost others: seq<array<byte>>, ghost otherImg: seq<seq<byte>>)
    requires Shows(bs, img) && Distinct(bs) && Shows(others, otherImg) && p !in others
    requires pos < |bs| * DEFAULT_SIZE && p == bs[pos / DEFAULT_SIZE] && o == pos % DEFAULT_SIZE
    modifies p
    ensures Shows(bs, Store(img, pos, v)) && Shows(others, otherImg)
  {
    p[o] := v;
    assert forall k :: 0 <= k < |bs| && k != pos / DEFAULT_SIZE ==> bs[k][..] == old(bs[k][..]);
    assert forall k :: 0 <= k < |others| ==> others[k][..] == old(others[k][..]);
  }

  /** The blocks of a list, as a multiset. */
  ghost function Held(bs: seq<array<byte>>): multiset<array<byte>> {
    multiset(bs)
  }

  /** A multiset is linear when no block occurs twice. */
  ghost predicate Linear(m: multiset<array<byte>>) {
    forall b :: b in m ==> m[b] == 1
  }

  ghost predicate Distinct(bs: seq<array<byte>>) {
    forall i, j :: 0 <= i < j < |bs| ==> bs[i] != bs[j]
  }

  lemma LinearIsDistinct(bs: seq<array<byte>>)
    requires Linear(multiset(bs))
    ensures Distinct(bs)
  {
    forall i, j | 0 <= i < j < |bs| ensures bs[i] != bs[j] {
      var pre, post := bs[..j], bs[j + 1..];
      assert bs == pre + [bs[j]] + post;
      assert pre[i] == bs[i];
      assert bs[i] in pre;
      assert multiset(bs)[bs[j]] == multiset(pre)[bs[j]] + multiset([bs[j]])[bs[j]] + multiset(post)[bs[j]];
      assert bs[j] in bs;
    }
  }

  lemma Cancel(a: multiset<array<byte>>, b: multiset<array<byte>>, c: multiset<array<byte>>)
    requires a + c == b + c
    ensures a == b
  {
    forall x ensures a[x] == b[x] {
      assert (a + c)[x] == (b + c)[x];
    }
  }

  /** One block taken out of a list, with the first or the last block put into its place. */
  ghost function GapFilledByFirst<T>(s: seq<T>, k: nat): (r: seq<T>)
    requires k < |s|
    ensures |r| == |s| - 1
  {
    s[k := s[0]][1..]
  }

  ghost function GapFilledByLast<T>(s: seq<T>, k: nat): (r: seq<T>)
    requires k < |s|
    ensures |r| == |s| - 1
  {
    s[k := s[|s| - 1]][..|s| - 1]
  }

  /** The two branches of the source: fill the gap, or find that the block taken is itself the outer one. */
  lemma FirstBranches(bs: seq<array<byte>>, k: nat)
    requires k < |bs|
    ensures GapFilledByFirst(bs, k) == if k != 0 then bs[k := bs[0]][1..] else bs[1..]
  {
  }

  lemma LastBranches(bs: seq<array<byte>>, k: nat)
    requires k < |bs|
    ensures GapFilledByLast(bs, k) == if k < |bs| - 1 then bs[k := bs[|bs| - 1]][..|bs| - 1] else bs[..|bs| - 1]
  {
  }

  lemma HeldWithoutFirst(bs: seq<array<byte>>, k: nat)
    requires k < |bs|
    ensures Held(GapFilledByFirst(bs, k)) + multiset{bs[k]} == Held(bs)
  {
    var r := bs[k := bs[0]];
    assert r == [bs[0]] + r[1..];
    assert multiset(r) == multiset{bs[0]} + multiset(r[1..]);
    assert multiset(r) + multiset{bs[k]} == multiset(bs) + multiset{bs[0]};
    Cancel(multiset(r[1..]) + multiset{bs[k]}, multiset(bs), multiset{bs[0]});
  }

  lemma HeldWithoutLast(bs: seq<array<byte>>, k: nat)
    requires k < |bs|
    ensures Held(GapFilledByLast(bs, k)) + multiset{bs[k]} == Held(bs)
  {
    var last := |bs| - 1;
    var r := bs[k := bs[last]];
    assert r == r[..last] + [bs[last]];
    assert multiset(r) == multiset(r[..last]) + multiset{bs[last]};
    assert multiset(r) + multiset{bs[k]} == multiset(bs) + multiset{bs[last]};
    Cancel(multiset(r[..last]) + multiset{bs[k]}, multiset(bs), multiset{bs[last]});
  }

  lemma WithoutFirst(img: seq<seq<byte>>, k: nat, n: nat)
    requires IsImage(img) && k < |img| && (k + 1) * DEFAULT_SIZE + n <= |img| * DEFAULT_SIZE
    ensures IsImage(GapFilledByFirst(img, k))
    ensures Bytes(img, k * DEFAULT_SIZE, DEFAULT_SIZE + n)
            == img[k] + Bytes(GapFilledByFirst(img, k), k * DEFAULT_SIZE, n)
  {
    hide Bytes;
    BytesSplit(img, k * DEFAULT_SIZE, DEFAULT_SIZE, n);
    BytesBlock(img, k);
    BytesShift(img, GapFilledByFirst(img, k), -1, (k + 1) * DEFAULT_SIZE, n);
  }

  lemma WithoutLast(img: seq<seq<byte>>, k: nat, lo: nat)
    requires IsImage(img) && k < |img| && lo <= k * DEFAULT_SIZE
    ensures IsImage(GapFilledByLast(img, k))
    ensures Bytes(img, lo, (k + 1) * DEFAULT_SIZE - lo)
            == Bytes(GapFilledByLast(img, k), lo, k * DEFAULT_SIZE - lo) + img[k]
  {
    hide Bytes;
    BytesSplit(img, lo, k * DEFAULT_SIZE - lo, DEFAULT_SIZE);
    BytesBlock(img, k);
    BytesShift(img, GapFilledByLast(img, k), 0, lo, k * DEFAULT_SIZE - lo);
  }

  lemma ShowsWithout(bs: seq<array<byte>>, img: seq<seq<byte>>, k: nat)
    requires Shows(bs, img) && k < |img|
    ensures img[k] == bs[k][..]
    ensures Shows(GapFilledByFirst(bs, k), GapFilledByFirst(img, k))
    ensures Shows(GapFilledByLast(bs, k), GapFilledByLast(img, k))
  {
  }

  lemma Exchanged(a: multiset<array<byte>>, b: multiset<array<byte>>, a': multiset<array<byte>>,
                  b': multiset<array<byte>>, x: multiset<array<byte>>, y: multiset<array<byte>>)
    requires a' + x == a + y && b' + y == b + x
    ensures a' + b' == a + b
  {
    forall e ensures (a' + b')[e] == (a + b)[e] {
      assert (a' + x)[e] == (a + y)[e] && (b' + y)[e] == (b + x)[e];
    }
  }

  /** Another block in the place of block k. */
  lemma HeldUpdate(bs: seq<array<byte>>, k: nat, b: array<byte>)
    requires k < |bs|
    ensures Held(bs[k := b]) + multiset{bs[k]} == Held(bs) + multiset{b}
  {
  }

  lemma ShowsUpdate(bs: seq<array<byte>>, img: seq<seq<byte>>, k: nat, b: array<byte>)
    requires Shows(bs, img) && k < |bs| && b.Length == DEFAULT_SIZE
    ensures Shows(bs[k := b], img[k := b[..]]) && img[k] == bs[k][..]
  {
  }

  /** The bytes after block k and the bytes before it do not depend on it. */
  lemma FirstExchanged(img: seq<seq<byte>>, k: nat, x: seq<byte>, n: nat)
    requires IsImage(img) && k < |img| && |x| == DEFAULT_SIZE && (k + 1) * DEFAULT_SIZE + n <= |img| * DEFAULT_SIZE
    ensures IsImage(img[k := x])
    ensures Bytes(img, k * DEFAULT_SIZE, DEFAULT_SIZE + n) == img[k] + Bytes(img[k := x], (k + 1) * DEFAULT_SIZE, n)
  {
    hide Bytes;
    BytesSplit(img, k * DEFAULT_SIZE, DEFAULT_SIZE, n);
    BytesBlock(img, k);
    BytesShift(img, img[k := x], 0, (k + 1) * DEFAULT_SIZE, n);
  }

  lemma LastExchanged(img: seq<seq<byte>>, k: nat, x: seq<byte>, lo: nat)
    requires IsImage(img) && k < |img| && |x| == DEFAULT_SIZE && lo <= k * DEFAULT_SIZE
    ensures IsImage(img[k := x])
    ensures Bytes(img, lo, (k + 1) * DEFAULT_SIZE - lo) == Bytes(img[k := x], lo, k * DEFAULT_SIZE - lo) + img[k]
  {
    hide Bytes;
    BytesSplit(img, lo, k * DEFAULT_SIZE - lo, DEFAULT_SIZE);
    BytesBlock(img, k);
    BytesShift(img, img[k := x], 0, lo, k * DEFAULT_SIZE - lo);
  }

  lemma HeldConcat(a: seq<array<byte>>, b: seq<array<byte>>)
    ensures Held(a + b) == Held(a) + Held(b)
  {
  }

  lemma HeldOne(b: array<byte>)
    ensures Held([b]) == multiset{b}
  {
  }

  lemma ShowsConcat(a: seq<array<byte>>, aImg: seq<seq<byte>>, b: seq<array<byte>>, bImg: seq<seq<byte>>)
    requires Shows(a, aImg) && Shows(b, bImg)
    ensures Shows(a + b, aImg + bImg)
  {
  }

  lemma ShowsOne(b: array<byte>)
    requires b.Length == DEFAULT_SIZE
    ensures Shows([b], [b[..]])
  {
  }

  lemma ShowsSplit(bs: seq<array<byte>>, img: seq<seq<byte>>, k: nat)
    requires Shows(bs, img) && k <= |bs|
    ensures |img| == |bs| && Shows(bs[..k], img[..k]) && Shows(bs[k..], img[k..])
    ensures bs == bs[..k] + bs[k..] && img == img[..k] + img[k..]
  {
  }

  /** Turning a deque of blocks: the first k go to the end. */
  lemma Turned(bs: seq<array<byte>>, img: seq<seq<byte>>, k: nat)
    requires Shows(bs, img) && k <= |bs|
    ensures Shows(bs[k..] + bs[..k], img[k..] + img[..k]) && Held(bs[k..] + bs[..k]) == Held(bs)
  {
    hide Shows, Held;
    ShowsSplit(bs, img, k);
    ShowsConcat(bs[k..], img[k..], bs[..k], img[..k]);
    HeldConcat(bs[k..], bs[..k]);
    HeldConcat(bs[..k], bs[k..]);
  }

  lemma WithoutFirstBlock(bs: seq<array<byte>>, img: seq<seq<byte>>)
    requires Shows(bs, img) && bs != []
    ensures |img| == |bs| && bs[0].Length == DEFAULT_SIZE
    ensures Shows(bs[1..], img[1..]) && bs == [bs[0]] + bs[1..]
  {
  }

  lemma WithoutLastBlock(bs: seq<array<byte>>, img: seq<seq<byte>>)
    requires Shows(bs, img) && bs != []
    ensures var k := |bs| - 1;
            && |img| == |bs| && bs[k].Length == DEFAULT_SIZE
            && Shows(bs[..k], img[..k]) && bs == bs[..k] + [bs[k]]
  {
  }
}
