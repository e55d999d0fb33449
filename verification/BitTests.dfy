// The read and write tests of the sequencer: which bits of a group were free of
// errors in every rank, gathered virtual group by virtual group in one word.

module BitTests {
  import opened BitVectors
  import opened CArithmetic

  const WORD: nat := 32

  // An error word of the hardware; a set bit is an error.
  type ErrorWord = b: Bits | |b| == WORD witness seq(WORD, i => false)

  // What the hardware answers, by rank and virtual group.
  type Errors = (nat, nat) -> ErrorWord

  // ((t_btfld)1 << n) - 1
  function LowMask(n: nat): (m: Bits)
    ensures |m| == WORD && forall i :: 0 <= i < WORD ==> m[i] == (i < n)
  {
    seq(WORD, i => i < n)
  }

  // The error words of a rank, lowest virtual group first.
  function RankErrors(errors: Errors, r: nat, vgs: nat): (e: seq<ErrorWord>)
    ensures |e| == vgs && forall v :: 0 <= v < vgs ==> e[v] == errors(r, v)
  {
    seq(vgs, v requires 0 <= v < vgs => errors(r, v))
  }

  // One word from the error words of the virtual groups, w bits a group, keeping
  // maskWidth bits of each.
  function Gather(e: seq<ErrorWord>, w: nat, maskWidth: nat): (t: Bits)
    ensures |t| == WORD
  {
    if e == [] then AllClear(WORD)
    else Or(ShiftLeft(Gather(e[1..], w, maskWidth), w), And(LowMask(maskWidth), Not(e[0])))
  }

  // Some group that reaches bit i was free of an error there.
  predicate Reached(e: seq<ErrorWord>, i: nat, w: nat, maskWidth: nat)
    requires i < WORD
  {
    e != [] && ((i < maskWidth && !e[0][i]) || (i >= w && Reached(e[1..], i - w, w, maskWidth)))
  }

  lemma {:induction false} GatherReaches(e: seq<ErrorWord>, w: nat, maskWidth: nat, i: nat)
    requires i < WORD
    ensures Gather(e, w, maskWidth)[i] == Reached(e, i, w, maskWidth)
  {
    if e != [] {
      if i >= w {
        GatherReaches(e[1..], w, maskWidth, i - w);
      }
    }
  }

  // Bit i belongs to virtual group i / w and was free of an error there.
  predicate OwnGroupClean(e: seq<ErrorWord>, i: nat, w: nat)
    requires w > 0 && i < WORD
  {
    i / w < |e| && !e[i / w][i % w]
  }

  // If a group keeps exactly the bits it is shifted by, no group reaches into
  // another.
  lemma {:induction false} OwnGroupOnly(e: seq<ErrorWord>, i: nat, w: nat)
    requires w > 0 && i < WORD
    ensures Reached(e, i, w, w) == OwnGroupClean(e, i, w)
    decreases |e|
  {
    hide OwnGroupClean;
    FirstGroup(e, i, w);
    if i >= w {
      NextGroup(e, i, w);
      if e != [] {
        OwnGroupOnly(e[1..], i - w, w);
      }
    }
  }

  lemma FirstGroup(e: seq<ErrorWord>, i: nat, w: nat)
    requires w > 0 && i < WORD
    ensures i < w ==> OwnGroupClean(e, i, w) == (e != [] && !e[0][i])
  {
    if i < w {
      DivUnique(i, w, 0, i);
    }
  }

  lemma NextGroup(e: seq<ErrorWord>, i: nat, w: nat)
    requires 0 < w <= i < WORD
    ensures OwnGroupClean(e, i, w) == (e != [] && OwnGroupClean(e[1..], i - w, w))
  {
    var q, r := (i - w) / w, (i - w) % w;
    assert i == w * (q + 1) + r;
    DivUnique(i, w, q + 1, r);
  }

  // Bit i is one of the n bits and was free of an error in its own virtual group
  // in every rank of bgn..end that is not skipped.
  ghost predicate Clean(errors: Errors, skip: seq<bool>, bgn: nat, end: nat, n: nat, vgs: nat, w: nat, i: nat)
    requires end <= |skip| && w > 0 && i < WORD
  {
    i < n && forall r :: bgn <= r < end && !skip[r] ==> OwnGroupClean(RankErrors(errors, r, vgs), i, w)
  }

  // What PASS_ALL_BITS and PASS_ONE_BIT ask for.
  ghost predicate Succeeds(errors: Errors, skip: seq<bool>, bgn: nat, end: nat, n: nat, vgs: nat, w: nat,
                           allCorrect: bool)
    requires end <= |skip| && w > 0
  {
    if allCorrect
    then forall i :: 0 <= i < n && i < WORD ==> Clean(errors, skip, bgn, end, n, vgs, w, i)
    else exists i :: 0 <= i < WORD && Clean(errors, skip, bgn, end, n, vgs, w, i)
  }

  // The loops of rw_mgr_mem_calibrate_read_test and of its write twin: n bits in
  // vgs virtual groups of w bits.
  method BitTest(errors: Errors, skip: seq<bool>, bgn: nat, end: nat, n: nat, vgs: nat, w: nat, allCorrect: bool)
    returns (ok: bool, bitChk: Bits)
    requires bgn <= end <= |skip| && vgs > 0 && w > 0
    ensures |bitChk| == WORD
    ensures forall i :: 0 <= i < WORD ==> bitChk[i] == Clean(errors, skip, bgn, end, n, vgs, w, i)
    ensures ok <==> Succeeds(errors, skip, bgn, end, n, vgs, w, allCorrect)
  {
    bitChk := LowMask(n);
    for r := bgn to end
      invariant |bitChk| == WORD
      invariant forall i :: 0 <= i < WORD ==> bitChk[i] == Clean(errors, skip, bgn, r, n, vgs, w, i)
    {
      if skip[r] {
        continue;
      }
      var tmp := RankBits(errors, r, vgs, w);
      bitChk := And(bitChk, tmp);
    }
    if allCorrect {
      ok := bitChk == LowMask(n);
      assert ok <==> forall i :: 0 <= i < n && i < WORD ==> bitChk[i];
    } else {
      ok := AnySet(bitChk);
    }
  }

  // The virtual groups of one rank, from the highest down.
  method RankBits(errors: Errors, r: nat, vgs: nat, w: nat) returns (tmp: Bits)
    requires vgs > 0 && w > 0
    ensures |tmp| == WORD
    ensures forall i :: 0 <= i < WORD ==> tmp[i] == OwnGroupClean(RankErrors(errors, r, vgs), i, w)
  {
    ghost var e := RankErrors(errors, r, vgs);
    tmp := AllClear(WORD);
    for vg := vgs downto 0
      invariant tmp == Gather(e[vg..], w, w)
    {
      assert e[vg..][1..] == e[vg + 1..];
      tmp := ShiftLeft(tmp, w);
      tmp := Or(tmp, And(LowMask(w), Not(errors(r, vg))));
    }
    assert e[0..] == e;
    forall i | 0 <= i < WORD
      ensures tmp[i] == OwnGroupClean(e, i, w)
    {
      GatherReaches(e, w, w, i);
      OwnGroupOnly(e, i, w);
    }
  }

  // rw_mgr_mem_calibrate_read_test_all_ranks: as many tries as asked for, at
  // least one, stopping at the first that fails, whose bits are returned; otherwise
  // those of the last.  errors tells the tries apart.
  method MultiTry(errors: nat -> Errors, tries: nat, skip: seq<bool>, n: nat, vgs: nat, w: nat, allCorrect: bool)
    returns (success: bool, bitChk: Bits)
    requires vgs > 0 && w > 0
    ensures success <==> forall t: nat :: t == 0 || t < tries ==>
                           Succeeds(errors(t), skip, 0, |skip|, n, vgs, w, allCorrect)
    ensures |bitChk| == WORD
    ensures exists t: nat | t == 0 || t < tries ::
              && (forall k :: 0 <= k < t ==> Succeeds(errors(k), skip, 0, |skip|, n, vgs, w, allCorrect))
              && (if success then t + 1 >= tries else !Succeeds(errors(t), skip, 0, |skip|, n, vgs, w, allCorrect))
              && forall i :: 0 <= i < WORD ==> bitChk[i] == Clean(errors(t), skip, 0, |skip|, n, vgs, w, i)
  {
    var num := if tries == 0 then 1 else tries;
    var t := 0;
    while true
      invariant 0 <= t < num
      invariant forall k :: 0 <= k < t ==> Succeeds(errors(k), skip, 0, |skip|, n, vgs, w, allCorrect)
      decreases num - t
    {
      success, bitChk := BitTest(errors(t), skip, 0, |skip|, n, vgs, w, allCorrect);
      t := t + 1;
      if !success || t == num {
        return;
      }
    }
  }

  // The write test masks each virtual group with a mask sized for the read side.
  // Every set of error words is gathered as it should be exactly when the mask is
  // as wide as the shift, or there is one group and the mask covers it.
  lemma MaskMustMatchShift(n: nat, vgs: nat, w: nat, maskWidth: nat)
    requires vgs > 0 && w > 0 && n == vgs * w <= WORD
    ensures (forall e: seq<ErrorWord>, i | |e| == vgs && 0 <= i < n ::
               Gather(e, w, maskWidth)[i] == OwnGroupClean(e, i, w))
            <==> maskWidth == w || (vgs == 1 && maskWidth >= w)
  {
    if maskWidth == w || (vgs == 1 && maskWidth >= w) {
      forall e: seq<ErrorWord>, i | |e| == vgs && 0 <= i < n
        ensures Gather(e, w, maskWidth)[i] == OwnGroupClean(e, i, w)
      {
        GatherReaches(e, w, maskWidth, i);
        OwnGroupOnly(e, i, w);
        if vgs == 1 {
          assert e[1..] == [];
        }
      }
    } else {
      var e, i := WrongGather(n, vgs, w, maskWidth);
    }
  }

  // Two groups, and a mask one bit too wide: an error in bit 0 of group 1 is
  // covered up by bit w of group 0's word being clean.
  lemma WrongGather(n: nat, vgs: nat, w: nat, maskWidth: nat) returns (e: seq<ErrorWord>, i: nat)
    requires vgs > 0 && w > 0 && n == vgs * w <= WORD
    requires maskWidth < w || (maskWidth > w && vgs > 1)
    ensures |e| == vgs && i < n && Gather(e, w, maskWidth)[i] != OwnGroupClean(e, i, w)
  {
    assert vgs > 1 ==> vgs * w >= 2 * w;
    var clean: ErrorWord, dirty: ErrorWord := seq(WORD, k => false), seq(WORD, k => true);
    if maskWidth < w {
      i := maskWidth;
      e := seq(vgs, v => clean);
      GatherReaches(e, w, maskWidth, i);
      DivUnique(i, w, 0, i);
    } else {
      i := w;
      e := [clean] + seq(vgs - 1, v => dirty);
      GatherReaches(e, w, maskWidth, i);
      DivUnique(i, w, 1, 0);
      assert e[1] == dirty;
    }
  }
}
