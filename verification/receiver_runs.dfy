/** Whole runs of the receiver: which frames of an arbitrary arrival sequence are accepted. */
module ReceiverRuns {
  import opened Prelude
  import opened ReplayWindow

  /** One call of Decrypt: the nonce on the wire, and whether the frame is genuine. */
  datatype Arrival = Arrival(n: uint64, authentic: bool)

  function Run(arrivals: seq<Arrival>): Receiver {
    if arrivals == [] then NEW_RECEIVER
    else
      var last := |arrivals| - 1;
      Receive(Run(arrivals[..last]), arrivals[last].n, arrivals[last].authentic)
  }

  predicate AcceptedAt(arrivals: seq<Arrival>, j: nat)
    requires j < |arrivals|
  {
    arrivals[j].authentic && Fresh(Run(arrivals[..j]), arrivals[j].n)
  }

  /** `n` was accepted at some point of the run. */
  ghost predicate Accepted(arrivals: seq<Arrival>, n: uint64) {
    exists j: nat | j < |arrivals| :: AcceptedAt(arrivals, j) && arrivals[j].n == n
  }

  lemma AcceptedAtPrefix(arrivals: seq<Arrival>, k: nat, j: nat)
    requires j < k <= |arrivals|
    ensures AcceptedAt(arrivals[..k], j) <==> AcceptedAt(arrivals, j)
  {
    assert arrivals[..k][..j] == arrivals[..j];
  }

  lemma AcceptedGrows(arrivals: seq<Arrival>, n: uint64)
    requires arrivals != []
    ensures
      var last := |arrivals| - 1;
      Accepted(arrivals, n) <==> Accepted(arrivals[..last], n) || (AcceptedAt(arrivals, last) && arrivals[last].n == n)
  {
    hide AcceptedAt;
    var last := |arrivals| - 1;
    var before := arrivals[..last];
    forall j: nat | j < last ensures AcceptedAt(before, j) <==> AcceptedAt(arrivals, j) {
      AcceptedAtPrefix(arrivals, last, j);
    }
    if j: nat :| j < last && AcceptedAt(before, j) && before[j].n == n {
      assert AcceptedAt(arrivals, j) && arrivals[j].n == n;
    }
    if j: nat :| j < |arrivals| && AcceptedAt(arrivals, j) && arrivals[j].n == n {
      assert j < last ==> AcceptedAt(before, j) && before[j].n == n;
    }
  }

  /** The receiver after a run holds the largest nonce presented and exactly the accepted nonces. */
  lemma {:induction false} RunMeaning(arrivals: seq<Arrival>)
    ensures Sound(Run(arrivals))
    ensures Run(arrivals).any <==> arrivals != []
    ensures forall j: nat | j < |arrivals| :: arrivals[j].n <= Run(arrivals).max
    ensures arrivals != [] ==> exists j: nat | j < |arrivals| :: arrivals[j].n == Run(arrivals).max
    ensures forall n :: n in Run(arrivals).accepted <==> Accepted(arrivals, n)
  {
    hide Accepted;
    if arrivals == [] {
      forall n: uint64 ensures !Accepted([], n) {
        NothingAccepted(n);
      }
    } else {
      var last := |arrivals| - 1;
      var before := arrivals[..last];
      RunMeaning(before);
      if Run(arrivals).max != arrivals[last].n {
        var j: nat :| j < last && before[j].n == Run(before).max;
        assert arrivals[j].n == Run(arrivals).max;
      }
      forall n ensures n in Run(arrivals).accepted <==> Accepted(arrivals, n) {
        AcceptedGrows(arrivals, n);
      }
    }
  }

  lemma NothingAccepted(n: uint64)
    ensures !Accepted([], n)
  {
  }

  /** A frame passes the window exactly when nothing 64 or more ahead of it came first, and it was not accepted. */
  lemma FreshExactly(arrivals: seq<Arrival>, n: uint64)
    ensures Fresh(Run(arrivals), n) <==>
            (forall j: nat | j < |arrivals| :: arrivals[j].n < n + WINDOW) && !Accepted(arrivals, n)
  {
    RunMeaning(arrivals);
  }

  /** No nonce is ever accepted twice. */
  lemma AcceptedOnce(arrivals: seq<Arrival>, i: nat, j: nat)
    requires i < j < |arrivals|
    requires AcceptedAt(arrivals, i) && AcceptedAt(arrivals, j)
    ensures arrivals[i].n != arrivals[j].n
  {
    FreshExactly(arrivals[..j], arrivals[j].n);
    AcceptedAtPrefix(arrivals, j, i);
    assert arrivals[..j][i] == arrivals[i];
  }

  /** No arrival is overtaken by a nonce that is ahead of it by the window's width or more. */
  ghost predicate Displaced(arrivals: seq<Arrival>) {
    forall i: nat, j: nat | i < j < |arrivals| :: arrivals[i].n < arrivals[j].n + WINDOW
  }

  /**
   * Whatever is lost, duplicated or forged, under bounded displacement the first genuine copy of
   * each frame is accepted and no other copy is.
   */
  lemma {:induction false} ReorderTolerance(arrivals: seq<Arrival>, j: nat)
    requires Displaced(arrivals) && j < |arrivals|
    ensures AcceptedAt(arrivals, j) <==>
            arrivals[j].authentic && forall i: nat | i < j :: arrivals[i].authentic ==> arrivals[i].n != arrivals[j].n
    decreases j
  {
    var before, n := arrivals[..j], arrivals[j].n;
    FreshExactly(before, n);
    forall i: nat | i < j ensures AcceptedAt(before, i) <==> AcceptedAt(arrivals, i) {
      AcceptedAtPrefix(arrivals, j, i);
    }
    if i: nat :| i < j && arrivals[i].authentic && arrivals[i].n == n {
      FirstCopyAccepted(arrivals, i);
      var k: nat :| k <= i && AcceptedAt(arrivals, k) && arrivals[k].n == n;
      assert AcceptedAt(before, k) && before[k].n == n;
    }
  }

  lemma {:induction false} FirstCopyAccepted(arrivals: seq<Arrival>, i: nat)
    requires Displaced(arrivals) && i < |arrivals| && arrivals[i].authentic
    ensures exists k: nat | k <= i :: AcceptedAt(arrivals, k) && arrivals[k].n == arrivals[i].n
    decreases i
  {
    FreshExactly(arrivals[..i], arrivals[i].n);
    if !AcceptedAt(arrivals, i) {
      var k: nat :| k < i && AcceptedAt(arrivals[..i], k) && arrivals[..i][k].n == arrivals[i].n;
      AcceptedAtPrefix(arrivals, i, k);
    }
  }
}
