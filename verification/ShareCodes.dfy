/** server/DiretransServer, class RandomCode: share codes are dealt from a shuffled deck of 100,000. */
module ShareCodes {
  const DECK: nat := 100_000

  /** A shuffle of the numbers from 100,000 up: each of them once. */
  ghost predicate IsShuffle(s: seq<nat>) { IsDeck(s, DECK) }

  ghost predicate IsDeck(s: seq<nat>, n: nat) {
    && |s| == n
    && (forall i :: 0 <= i < |s| ==> DECK <= s[i] < DECK + n)
    && (forall i, j :: 0 <= i < j < |s| ==> s[i] != s[j])
  }

  ghost predicate AllShuffles(shuffle: nat -> seq<nat>) { forall n :: IsShuffle(shuffle(n)) }

  class RandomCode {
    /** What std::shuffle yields the n-th time. */
    const shuffle: nat -> seq<nat>
    var epoch: nat
    var codes: seq<nat>
    var startIndex: nat
    var endIndex: nat

    ghost predicate Valid()
      reads this
    {
      AllShuffles(shuffle) && codes == shuffle(epoch) && startIndex <= endIndex == DECK - 1
    }

    constructor (shuffle: nat -> seq<nat>)
      requires AllShuffles(shuffle)
      ensures Valid() && this.shuffle == shuffle && epoch == 0 && startIndex == 0
    {
      this.shuffle := shuffle;
      epoch := 0;
      codes := shuffle(0);
      startIndex, endIndex := 0, DECK - 1;
    }

    method GenCodes()
      requires AllShuffles(shuffle)
      modifies this
      ensures Valid() && epoch == old(epoch) + 1 && startIndex == 0
    {
      epoch := epoch + 1;
      codes := shuffle(epoch);
      startIndex := 0;
      endIndex := |codes| - 1;
    }

    /** Deals the next code of the deck; the last one of each shuffle is never dealt. */
    method GetCode() returns (res: nat)
      requires Valid()
      modifies this
      ensures Valid() && DECK <= res < 2 * DECK && startIndex > 0 && res == codes[startIndex - 1]
      ensures if old(startIndex) < DECK - 1
        then epoch == old(epoch) && startIndex == old(startIndex) + 1
        else epoch == old(epoch) + 1 && startIndex == 1
    {
      if endIndex <= startIndex {
        GenCodes();
      }
      res := codes[startIndex];
      startIndex := startIndex + 1;
      assert IsShuffle(shuffle(epoch));
    }

    /** The loop of handleShareFile: deal until a code is not in use. With fewer than 99,999 codes in use it ends,
        in this shuffle or the next, because the 99,999 codes dealt from one shuffle are all different. */
    method FreshCode(live: set<nat>) returns (code: nat)
      requires Valid() && |live| < DECK - 1
      modifies this
      ensures Valid() && code !in live && DECK <= code < 2 * DECK
      ensures old(epoch) <= epoch <= old(epoch) + 1
    {
      code := GetCode();
      while code in live
        invariant Valid() && startIndex > 0 && code == codes[startIndex - 1] && DECK <= code < 2 * DECK
        invariant old(epoch) <= epoch <= old(epoch) + 1
        invariant epoch == old(epoch) + 1 ==> forall i :: 0 <= i < startIndex - 1 ==> codes[i] in live
        decreases old(epoch) + 1 - epoch, DECK - startIndex
      {
        assert IsShuffle(shuffle(epoch));
        if epoch == old(epoch) + 1 {
          DistinctFit(codes[..startIndex], live);
        }
        code := GetCode();
      }
    }
  }

  /** Pigeonhole: different numbers that all lie in a set are no more than its members. */
  lemma {:induction false} DistinctFit(s: seq<nat>, live: set<nat>)
    requires forall i :: 0 <= i < |s| ==> s[i] in live
    requires forall i, j :: 0 <= i < j < |s| ==> s[i] != s[j]
    ensures |s| <= |live|
  {
    if s == [] {
    } else {
      var last := |s| - 1;
      DistinctFit(s[..last], live - {s[last]});
    }
  }

  /** Any set of numbers can be listed, each once. */
  lemma {:induction false} CanBeListed(live: set<nat>) returns (s: seq<nat>)
    ensures |s| == |live| && (forall i :: 0 <= i < |s| ==> s[i] in live)
    ensures forall i, j :: 0 <= i < j < |s| ==> s[i] != s[j]
    decreases live
  {
    if live == {} {
      s := [];
    } else {
      var x :| x in live;
      var rest := CanBeListed(live - {x});
      s := rest + [x];
    }
  }

  function Codes(n: nat): (s: set<nat>)
    ensures |s| == n && forall c :: c in s <==> DECK <= c < DECK + n
  {
    if n == 0 then {} else Codes(n - 1) + {DECK + n - 1}
  }

  lemma SubsetSmaller(a: set<nat>, b: set<nat>)
    requires a <= b
    ensures |b - a| == |b| - |a|
  {
    assert a + (b - a) == b;
  }

  lemma DeckFrom(live: set<nat>, n: nat) returns (s: seq<nat>)
    requires forall c :: c in live ==> DECK <= c < DECK + n
    ensures IsDeck(s, n) && forall i :: 0 <= i < |live| && i < n ==> s[i] in live
  {
    var all := Codes(n);
    SubsetSmaller(live, all);
    var listed := CanBeListed(live);
    var free := CanBeListed(all - live);
    s := listed + free;
  }

  /** The bound is exact: with 99,999 codes in use, there is a shuffle all of whose dealt codes are in use, so the
      loop need not end. */
  lemma DealerCanStarve(live: set<nat>)
    requires |live| >= DECK - 1 && forall c :: c in live ==> DECK <= c < 2 * DECK
    ensures exists s :: IsShuffle(s) && forall i :: 0 <= i < DECK - 1 ==> s[i] in live
  {
    var s := DeckFrom(live, DECK);
    assert IsShuffle(s);
  }
}
