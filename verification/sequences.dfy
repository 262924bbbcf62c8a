/** Order-preserving selection from a sequence, shared by the search
    filter and the client's list parsing. */
module Sequences {

  /** `idx` picks out `a` from `b` at strictly increasing positions. */
  ghost predicate Embeds<T>(a: seq<T>, b: seq<T>, idx: seq<int>) {
    && |idx| == |a|
    && (forall k | 0 <= k < |a| :: 0 <= idx[k] < |b| && a[k] == b[idx[k]])
    && (forall k, l | 0 <= k < l < |a| :: idx[k] < idx[l])
  }

  ghost predicate IsSubsequence<T>(a: seq<T>, b: seq<T>) {
    exists idx :: Embeds(a, b, idx)
  }

  /** `r` is `ts` with every `blank` removed and the rest kept in order:
      `idx` lists, increasing, exactly the positions of `ts` not holding
      `blank`. */
  ghost predicate RemovesOnly<T>(ts: seq<T>, r: seq<T>, idx: seq<int>, blank: T) {
    && Embeds(r, ts, idx)
    && (forall k | 0 <= k < |ts| :: ts[k] != blank <==> k in idx)
  }

  /** A trailing `blank` is removed. */
  lemma RemoveLastStep<T>(init: seq<T>, r: seq<T>, idx: seq<int>, blank: T)
    requires RemovesOnly(init, r, idx, blank)
    ensures RemovesOnly(init + [blank], r, idx, blank)
  {
    var ts := init + [blank];
    forall k | 0 <= k < |r| ensures 0 <= idx[k] < |ts| && r[k] == ts[idx[k]] {
      assert ts[idx[k]] == init[idx[k]];
    }
    forall k | 0 <= k < |ts| ensures ts[k] != blank <==> k in idx {
      if k < |init| {
        assert ts[k] == init[k];
      } else {
        assert forall i | 0 <= i < |idx| :: idx[i] < |init|;
      }
    }
  }

  /** Any other trailing entry is kept at the end. */
  lemma KeepLastStep<T>(init: seq<T>, r: seq<T>, idx: seq<int>, x: T, blank: T)
    requires RemovesOnly(init, r, idx, blank) && x != blank
    ensures RemovesOnly(init + [x], r + [x], idx + [|init|], blank)
  {
    var ts := init + [x];
    var r' := r + [x];
    var idx' := idx + [|init|];
    assert Embeds(r', ts, idx') by {
      forall k | 0 <= k < |r'| ensures 0 <= idx'[k] < |ts| && r'[k] == ts[idx'[k]] {
        if k < |r| {
          assert r'[k] == r[k] && idx'[k] == idx[k] && ts[idx[k]] == init[idx[k]];
        }
      }
      forall k, l | 0 <= k < l < |r'| ensures idx'[k] < idx'[l] {
        assert idx'[k] == idx[k] < |init|;
        if l < |r| {
          assert idx'[l] == idx[l];
        }
      }
    }
    forall k | 0 <= k < |ts| ensures ts[k] != blank <==> k in idx' {
      if k < |init| {
        assert ts[k] == init[k];
        assert k in idx' <==> k in idx;
      } else {
        assert idx'[|idx|] == k;
      }
    }
  }

  /** An entry survives exactly when it occurs in `ts` and is not `blank`. */
  lemma RemovesOnlyMembers<T>(ts: seq<T>, r: seq<T>, idx: seq<int>, blank: T)
    requires RemovesOnly(ts, r, idx, blank)
    ensures forall x :: x in r <==> x != blank && x in ts
  {
    forall x ensures x in r <==> x != blank && x in ts {
      if x in r {
        var i :| 0 <= i < |r| && r[i] == x;
        assert x == ts[idx[i]];
        assert idx[i] in idx;
      }
      if x != blank && x in ts {
        var k :| 0 <= k < |ts| && x == ts[k];
        assert k in idx;
        var i :| 0 <= i < |idx| && idx[i] == k;
        assert r[i] == x;
      }
    }
  }
}
