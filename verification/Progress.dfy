/**
 Progress cells.

 Every surface, saved entropy context, motion grid and segmentation map has a progress cell beside
 its bytes. The cell is pending while a frame in flight is still producing the bytes and is final
 (done or failed) otherwise; readers block until it is final. This module states how the cells, the
 bytes, the frames in flight and the values a serial decoder would have produced hang together, and
 shows that each kind of step keeps them together.
 */
module Progress {
  import opened Values

  datatype Cell = Pending | Done | Failed

  /** The cells and the bytes behind them, indexed by handle. */
  datatype Bank = Bank(cell: seq<Cell>, data: seq<Data>)

  /** What one frame in flight does to a bank: the handles it waits on and reads, the handle it
      writes and publishes (-1 for none), the references it keeps until it retires, and whether it
      has published. */
  datatype Bind = Bind(needs: seq<int>, makes: int, holds: seq<int>, done: bool)

  function NewBank(size: nat): Bank {
    Bank(seq(size, i => Done), seq(size, i => []))
  }

  function Reset(b: Bank, h: int): Bank
    requires h < |b.cell|
  {
    if h < 0 then b else b.(cell := b.cell[h := Pending])
  }

  /** Publishes the outcome r at handle h. */
  function Post(b: Bank, h: int, r: Result<Data>): Bank
    requires h < |b.cell| == |b.data|
  {
    if h < 0 then b
    else if r.Ok? then Bank(b.cell[h := Done], b.data[h := r.value])
    else b.(cell := b.cell[h := Failed])
  }

  /** Overwrites bytes without touching the progress cell. */
  function Fill(b: Bank, h: nat, d: Data): Bank
    requires h < |b.data|
  {
    b.(data := b.data[h := d])
  }

  /** What a reader of handle h sees once the cell is final. */
  function Read(b: Bank, h: int): Option<Result<Data>>
    requires h < |b.cell| == |b.data|
  {
    if h < 0 then None
    else if b.cell[h] == Done then Some(Ok(b.data[h]))
    else Some(Err)
  }

  predicate InRange(hs: seq<int>, size: nat) {
    forall i | 0 <= i < |hs| :: -1 <= hs[i] < size
  }

  predicate Final(b: Bank, hs: seq<int>) {
    forall i | 0 <= i < |hs| && 0 <= hs[i] < |b.cell| :: b.cell[hs[i]] != Pending
  }

  /** The value the serial decoder associates with a handle. */
  function Wanted(want: seq<Result<Data>>, h: int): Option<Result<Data>>
    requires h < |want|
  {
    if h < 0 then None else Some(want[h])
  }

  function Promise(want: seq<Result<Data>>, h: int, v: Result<Data>): seq<Result<Data>>
    requires h < |want|
  {
    if h < 0 then want else want[h := v]
  }

  ghost predicate Typed(size: nat, bs: seq<Bind>) {
    forall j | 0 <= j < |bs| :: InRange(bs[j].needs, size) && -1 <= bs[j].makes < size
  }

  /** Two frames in flight never write the same handle. */
  ghost predicate OneWriter(bs: seq<Bind>) {
    forall j, k | 0 <= j < k < |bs| :: bs[j].makes < 0 || bs[j].makes != bs[k].makes
  }

  /** A frame waits only on handles that a frame submitted before it writes. */
  ghost predicate WaitsBackwards(bs: seq<Bind>) {
    forall j, k | 0 <= j <= k < |bs| :: bs[k].makes < 0 || bs[k].makes !in bs[j].needs
  }

  ghost predicate Writes(bs: seq<Bind>, h: int) {
    exists j :: 0 <= j < |bs| && bs[j].makes == h
  }

  /** A cell is pending exactly while a frame in flight still has to publish it. */
  ghost predicate PendingIsOwned(b: Bank, bs: seq<Bind>)
    requires Typed(|b.cell|, bs)
  {
    && (forall j | 0 <= j < |bs| && bs[j].makes >= 0 :: b.cell[bs[j].makes] == Pending <==> !bs[j].done)
    && (forall h | 0 <= h < |b.cell| && b.cell[h] == Pending :: Writes(bs, h))
  }

  /** A final cell agrees with the serial decoder. */
  ghost predicate FinalIsRight(b: Bank, want: seq<Result<Data>>)
    requires |b.cell| == |b.data| == |want|
  {
    && (forall h | 0 <= h < |b.cell| && b.cell[h] == Done :: want[h] == Ok(b.data[h]))
    && (forall h | 0 <= h < |b.cell| && b.cell[h] == Failed :: want[h] == Err)
  }

  ghost predicate Coupled(b: Bank, want: seq<Result<Data>>, bs: seq<Bind>) {
    && |b.cell| == |b.data| == |want|
    && Typed(|b.cell|, bs)
    && OneWriter(bs)
    && WaitsBackwards(bs)
    && PendingIsOwned(b, bs)
    && FinalIsRight(b, want)
  }

  /** No frame in flight reads or writes h. */
  ghost predicate Fresh(bs: seq<Bind>, h: int) {
    forall j | 0 <= j < |bs| :: bs[j].makes != h && h !in bs[j].needs
  }

  lemma NewBankCoupled(size: nat)
    ensures Coupled(NewBank(size), seq(size, i => Ok([])), [])
  {
  }

  /** A reader that found its cell final has read what the serial decoder would have. */
  lemma ReadIsWanted(b: Bank, want: seq<Result<Data>>, bs: seq<Bind>, h: int)
    requires Coupled(b, want, bs) && h < |b.cell|
    requires h < 0 || b.cell[h] != Pending
    ensures Read(b, h) == Wanted(want, h)
  {
  }

  lemma StartCoupled(b: Bank, want: seq<Result<Data>>, bs: seq<Bind>, nb: Bind, v: Result<Data>)
    requires Coupled(b, want, bs)
    requires InRange(nb.needs, |b.cell|) && -1 <= nb.makes < |b.cell|
    requires nb.makes < 0 || (!nb.done && Fresh(bs, nb.makes) && nb.makes !in nb.needs)
    ensures Coupled(Reset(b, nb.makes), Promise(want, nb.makes, v), bs + [nb])
  {
    var b', bs' := Reset(b, nb.makes), bs + [nb];
    assert bs'[|bs|] == nb;
    assert forall j | 0 <= j < |bs| :: bs'[j] == bs[j];
    forall h | 0 <= h < |b'.cell| && b'.cell[h] == Pending
      ensures Writes(bs', h)
    {
      if h != nb.makes {
        assert Writes(bs, h);
        var j :| 0 <= j < |bs| && bs[j].makes == h;
        assert bs'[j].makes == h;
      }
    }
  }

  lemma PostCoupled(b: Bank, want: seq<Result<Data>>, bs: seq<Bind>, j: nat, r: Result<Data>)
    requires Coupled(b, want, bs) && j < |bs|
    requires bs[j].makes >= 0 ==> r == want[bs[j].makes]
    ensures Coupled(Post(b, bs[j].makes, r), want, bs[j := bs[j].(done := true)])
  {
    var w := bs[j].makes;
    var b', bs' := Post(b, w, r), bs[j := bs[j].(done := true)];
    forall k | 0 <= k < |bs'| && bs'[k].makes >= 0
      ensures b'.cell[bs'[k].makes] == Pending <==> !bs'[k].done
    {
      assert k != j ==> bs[k].makes != w;
    }
    forall h | 0 <= h < |b'.cell| && b'.cell[h] == Pending
      ensures Writes(bs', h)
    {
      assert Writes(bs, h);
      var k :| 0 <= k < |bs| && bs[k].makes == h;
      assert bs'[k].makes == h;
    }
  }

  lemma RetireCoupled(b: Bank, want: seq<Result<Data>>, bs: seq<Bind>)
    requires Coupled(b, want, bs) && bs != []
    requires bs[0].done || bs[0].makes < 0
    ensures Coupled(b, want, bs[1..])
  {
    var bs' := bs[1..];
    assert forall j | 0 <= j < |bs'| :: bs'[j] == bs[j + 1];
    forall h | 0 <= h < |b.cell| && b.cell[h] == Pending
      ensures Writes(bs', h)
    {
      var j :| 0 <= j < |bs| && bs[j].makes == h;
      assert bs'[j - 1].makes == h;
    }
  }

  /** Overwriting an idle handle keeps everything, but a failed cell stays failed. */
  lemma FillCoupled(b: Bank, want: seq<Result<Data>>, bs: seq<Bind>, h: nat, d: Data)
    requires Coupled(b, want, bs) && h < |b.cell|
    requires Fresh(bs, h)
    ensures b.cell[h] != Pending
    ensures Coupled(Fill(b, h, d), want[h := if b.cell[h] == Failed then Err else Ok(d)], bs)
  {
    assert !Writes(bs, h);
  }

  /** A frame whose predecessors have all published waits on nothing. */
  lemma OldestReads(b: Bank, want: seq<Result<Data>>, bs: seq<Bind>, j: nat)
    requires Coupled(b, want, bs) && j < |bs|
    requires forall k | 0 <= k < j :: bs[k].done
    ensures Final(b, bs[j].needs)
  {
    forall i | 0 <= i < |bs[j].needs| && 0 <= bs[j].needs[i] < |b.cell|
      ensures b.cell[bs[j].needs[i]] != Pending
    {
      var h := bs[j].needs[i];
      assert h in bs[j].needs;
      assert b.cell[h] == Pending ==> Writes(bs, h);
    }
  }
}
