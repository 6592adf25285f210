/**
 The loop that picks the peer with the highest score, for any scoring of peers.
 */
module Selection {
  import opened Texts

  type Score = Text -> nat

  /** The loop's result; the empty name stands for "no best yet". */
  function Choice(peers: seq<Text>, score: Score): Text {
    if peers == [] then []
    else
      var best, p := Choice(peers[..|peers| - 1], score), peers[|peers| - 1];
      if best == [] || score(p) > score(best) then p else best
  }

  lemma ChoiceStep(peers: seq<Text>, n: nat, score: Score)
    requires n < |peers|
    ensures var best := Choice(peers[..n], score);
            Choice(peers[..n + 1], score) ==
            if best == [] || score(peers[n]) > score(best) then peers[n] else best
  {
    assert peers[..n + 1][..n] == peers[..n];
  }

  /** The loop itself. */
  method Pick(peers: seq<Text>, score: Score) returns (best: Text)
    ensures best == Choice(peers, score)
  {
    var bestScore := 0;
    best := [];
    for i := 0 to |peers|
      invariant best == Choice(peers[..i], score)
      invariant best != [] ==> bestScore == score(best)
    {
      ChoiceStep(peers, i, score);
      var s := score(peers[i]);
      if best == [] || s > bestScore {
        best, bestScore := peers[i], s;
      }
    }
    assert peers[..|peers|] == peers;
  }

  /** Peer `b` has the highest score. */
  ghost predicate Wins(peers: seq<Text>, score: Score, b: Text) {
    b in peers && forall p | p in peers :: score(p) <= score(b)
  }

  /** Peer `i` is the first with the highest score. */
  ghost predicate FirstBest(peers: seq<Text>, score: Score, i: nat) {
    && i < |peers|
    && (forall j | 0 <= j < |peers| :: score(peers[j]) <= score(peers[i]))
    && (forall j | 0 <= j < i :: score(peers[j]) < score(peers[i]))
  }

  /** No two of the names have the same score. */
  ghost predicate Separates(score: Score, names: iset<Text>) {
    forall p, q | p in names && q in names && score(p) == score(q) :: p == q
  }

  ghost predicate SameElements(a: seq<Text>, b: seq<Text>) {
    (forall p | p in a :: p in b) && (forall p | p in b :: p in a)
  }

  lemma {:induction false} ChoiceIsFirstBest(peers: seq<Text>, score: Score) returns (i: nat)
    requires peers != [] && [] !in peers
    ensures FirstBest(peers, score, i) && peers[i] == Choice(peers, score)
  {
    var n := |peers| - 1;
    var init := peers[..n];
    if n == 0 {
      i := 0;
    } else {
      assert forall p | p in init :: p in peers;
      i := ChoiceIsFirstBest(init, score);
      assert peers[i] in peers;
      assert forall j | 0 <= j < n :: peers[j] == init[j];
      if score(peers[n]) > score(peers[i]) { i := n; }
    }
  }

  lemma FirstBestIsChoice(peers: seq<Text>, score: Score, i: nat)
    requires [] !in peers && FirstBest(peers, score, i)
    ensures peers[i] == Choice(peers, score)
  {
    var k := ChoiceIsFirstBest(peers, score);
    assert i == k;
  }

  /** Lists with the same peers choose the same one, whatever their order. */
  lemma SameChoice(a: seq<Text>, b: seq<Text>, names: iset<Text>, score: Score)
    requires a != [] && SameElements(a, b) && (forall p | p in a :: p in names)
    requires [] !in names && Separates(score, names)
    ensures Choice(a, score) == Choice(b, score) && Choice(a, score) in a
  {
    assert a[0] in b;
    var i := ChoiceIsFirstBest(a, score);
    var j := ChoiceIsFirstBest(b, score);
    assert a[i] in b && b[j] in a;
  }

  /** List `rest` is list `peers` without its entry `i`. */
  ghost predicate Without(peers: seq<Text>, i: nat, rest: seq<Text>) {
    i < |peers| && |rest| == |peers| - 1 && forall j | 0 <= j < |rest| :: rest[j] == peers[if j < i then j else j + 1]
  }

  lemma WithoutKeepsNames(peers: seq<Text>, i: nat, rest: seq<Text>)
    requires Without(peers, i, rest)
    ensures forall p | p in rest :: p in peers
    ensures forall p | p in peers && p != peers[i] :: p in rest
  {
    forall p | p in peers && p != peers[i] ensures p in rest {
      var j :| 0 <= j < |peers| && peers[j] == p;
      assert rest[if j < i then j else j - 1] == p;
    }
  }

  lemma FirstBestOfRest(peers: seq<Text>, i: nat, rest: seq<Text>, k: nat, score: Score)
    requires Without(peers, i, rest) && FirstBest(peers, score, k) && k != i
    ensures FirstBest(rest, score, if k < i then k else k - 1)
  {
  }

  /** Removing a peer that was not chosen leaves the choice as it was. */
  lemma RemoveUnchosen(peers: seq<Text>, i: nat, rest: seq<Text>, score: Score)
    requires [] !in peers && Without(peers, i, rest) && peers[i] != Choice(peers, score)
    ensures Choice(rest, score) == Choice(peers, score)
  {
    var k := ChoiceIsFirstBest(peers, score);
    FirstBestOfRest(peers, i, rest, k, score);
    WithoutKeepsNames(peers, i, rest);
    FirstBestIsChoice(rest, score, if k < i then k else k - 1);
  }

  /** A new peer, wherever it is listed, is chosen or changes nothing. */
  lemma AddPeer(peers: seq<Text>, i: nat, more: seq<Text>, score: Score)
    requires [] !in more && Without(more, i, peers)
    ensures Choice(more, score) in {more[i], Choice(peers, score)}
  {
    if Choice(more, score) != more[i] {
      RemoveUnchosen(more, i, peers, score);
    }
  }

  // ---- an empty name in the list ----

  /** What the empty name hides: a peer is beaten by the current best or by the empty name. */
  ghost predicate Covered(peers: seq<Text>, score: Score, best: Text) {
    && (best == [] || best in peers)
    && forall p | p in peers :: score(p) <= score(best) || score(p) <= score([])
  }

  lemma {:induction false} ChoiceCovers(peers: seq<Text>, score: Score)
    ensures Covered(peers, score, Choice(peers, score))
  {
    if peers != [] {
      var init := peers[..|peers| - 1];
      ChoiceCovers(init, score);
      assert forall p | p in peers :: p in init || p == peers[|peers| - 1];
    }
  }

  lemma EmptyLastWins(peers: seq<Text>, score: Score)
    requires peers != [] && peers[|peers| - 1] == []
    ensures Wins(peers, score, Choice(peers, score))
  {
    var init := peers[..|peers| - 1];
    ChoiceCovers(init, score);
    assert forall p | p in peers :: p in init || p == [];
    assert peers[|peers| - 1] in peers;
  }
}
