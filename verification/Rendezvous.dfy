/**
 Entity ownership by rendezvous hashing: the owner of a key is the peer with the
 highest mixed hash of (peer, key).
 */
module Rendezvous {
  import opened Options
  import opened Texts
  import opened Words
  import opened Words64
  import opened Selection

  const PRIME: Word := 1099511628211
  const PRIME_INVERSE: Word := 0xce965057aff6957b

  /** 64-bit FNV-1a. */
  function FnvSum(s: Text): Word {
    if s == [] then 14695981039346656037
    else Times(XorWord(FnvSum(s[..|s| - 1]), s[|s| - 1]), PRIME)
  }

  lemma SumSnoc(s: Text, b: Byte)
    ensures FnvSum(s + [b]) == Times(XorWord(FnvSum(s), b), PRIME)
  {
    assert (s + [b])[..|s|] == s;
  }

  /** The published sums of the empty text and of "a". */
  lemma PublishedSums(a: Byte)
    requires a == 0x61
    ensures FnvSum([]) == 0xcbf29ce484222325
    ensures FnvSum([a]) == 0xaf63dc4c8601ec8c
  {
    var start: Word := FnvSum([]);
    assert [a] == [] + [a];
    SumSnoc([], a);
    StartXorA(start, a);
    SumOfA(XorWord(start, a));
  }

  lemma SumOfA(x: Word)
    requires x == 0xcbf29ce484222344
    ensures Times(x, PRIME) == 0xaf63dc4c8601ec8c
  {
  }

  /** Hashing one more byte loses nothing: equal sums after equal bytes come from equal sums. */
  lemma SumsDifferOn(s: Text, t: Text, b: Byte)
    ensures FnvSum(s + [b]) == FnvSum(t + [b]) <==> FnvSum(s) == FnvSum(t)
  {
    SumSnoc(s, b);
    SumSnoc(t, b);
    PrimeInverts(XorWord(FnvSum(s), b));
    PrimeInverts(XorWord(FnvSum(t), b));
    XorCancels(FnvSum(s), b);
    XorCancels(FnvSum(t), b);
  }

  /** And every byte counts. */
  lemma LastByteCounts(s: Text, b: Byte, c: Byte)
    ensures FnvSum(s + [b]) == FnvSum(s + [c]) <==> b == c
  {
    SumSnoc(s, b);
    SumSnoc(s, c);
    PrimeInverts(XorWord(FnvSum(s), b));
    PrimeInverts(XorWord(FnvSum(s), c));
    XorCancels(FnvSum(s), b);
    XorCancels(FnvSum(s), c);
  }

  /** Multiplication by the prime can be undone. */
  lemma PrimeInverts(x: Word)
    ensures Times(Times(x, PRIME), PRIME_INVERSE) == x
  {
    var q := x * PRIME / WORDS;
    assert Times(x, PRIME) == x * PRIME - q * WORDS;
    assert PRIME * PRIME_INVERSE == 1 + 0xce9650590f * WORDS;
    assert Times(x, PRIME) * PRIME_INVERSE == x + (0xce9650590f * x - q * PRIME_INVERSE) * WORDS;
    RemainderIs(x, 0xce9650590f * x - q * PRIME_INVERSE);
  }

  /** Names of one length that differ in exactly one byte never have one sum. */
  lemma {:induction false} OneByteApart(pre: Text, b: Byte, c: Byte, post: Text)
    ensures FnvSum(pre + [b] + post) == FnvSum(pre + [c] + post) <==> b == c
  {
    if post == [] {
      assert pre + [b] + post == pre + [b] && pre + [c] + post == pre + [c];
      LastByteCounts(pre, b, c);
    } else {
      var init, last := post[..|post| - 1], post[|post| - 1];
      assert pre + [b] + post == pre + [b] + init + [last];
      assert pre + [c] + post == pre + [c] + init + [last];
      SumsDifferOn(pre + [b] + init, pre + [c] + init, last);
      OneByteApart(pre, b, c, init);
    }
  }

  const MULTIPLIER_A: Word := 0xbf58476d1ce4e5b9
  const MULTIPLIER_B: Word := 0x94d049bb133111eb
  const INVERSE_A: Word := 0x96de1b173f119089
  const INVERSE_B: Word := 0x319642b2d24d8ec3

  /** The splitmix64 finaliser. */
  function Mix64(x: Word): Word {
    Smear(Times(Smear(Times(Smear(x, 30), MULTIPLIER_A), 27), MULTIPLIER_B), 31)
  }

  function Unmix64(y: Word): Word {
    Unsmear(Times(Unsmear(Times(Unsmear(y, 31), INVERSE_B), 27), INVERSE_A), 30)
  }

  lemma AInverts(x: Word)
    ensures Times(Times(x, MULTIPLIER_A), INVERSE_A) == x
  {
    var q := x * MULTIPLIER_A / WORDS;
    assert Times(x, MULTIPLIER_A) == x * MULTIPLIER_A - q * WORDS;
    assert MULTIPLIER_A * INVERSE_A == 1 + 0x70c3bca78f27f46c * WORDS;
    assert Times(x, MULTIPLIER_A) * INVERSE_A == x + (0x70c3bca78f27f46c * x - q * INVERSE_A) * WORDS;
    RemainderIs(x, 0x70c3bca78f27f46c * x - q * INVERSE_A);
  }

  lemma InverseAInverts(x: Word)
    ensures Times(Times(x, INVERSE_A), MULTIPLIER_A) == x
  {
    var q := x * INVERSE_A / WORDS;
    assert Times(x, INVERSE_A) == x * INVERSE_A - q * WORDS;
    assert INVERSE_A * MULTIPLIER_A == 1 + 0x70c3bca78f27f46c * WORDS;
    assert Times(x, INVERSE_A) * MULTIPLIER_A == x + (0x70c3bca78f27f46c * x - q * MULTIPLIER_A) * WORDS;
    RemainderIs(x, 0x70c3bca78f27f46c * x - q * MULTIPLIER_A);
  }

  lemma BInverts(x: Word)
    ensures Times(Times(x, MULTIPLIER_B), INVERSE_B) == x
  {
    var q := x * MULTIPLIER_B / WORDS;
    assert Times(x, MULTIPLIER_B) == x * MULTIPLIER_B - q * WORDS;
    assert MULTIPLIER_B * INVERSE_B == 1 + 0x1cd336eda85f1453 * WORDS;
    assert Times(x, MULTIPLIER_B) * INVERSE_B == x + (0x1cd336eda85f1453 * x - q * INVERSE_B) * WORDS;
    RemainderIs(x, 0x1cd336eda85f1453 * x - q * INVERSE_B);
  }

  lemma InverseBInverts(x: Word)
    ensures Times(Times(x, INVERSE_B), MULTIPLIER_B) == x
  {
    var q := x * INVERSE_B / WORDS;
    assert Times(x, INVERSE_B) == x * INVERSE_B - q * WORDS;
    assert INVERSE_B * MULTIPLIER_B == 1 + 0x1cd336eda85f1453 * WORDS;
    assert Times(x, INVERSE_B) * MULTIPLIER_B == x + (0x1cd336eda85f1453 * x - q * MULTIPLIER_B) * WORDS;
    RemainderIs(x, 0x1cd336eda85f1453 * x - q * MULTIPLIER_B);
  }

  /** And so can both multiplications of the finaliser, from either side. */
  lemma MultipliersInvert(x: Word)
    ensures Times(Times(x, MULTIPLIER_A), INVERSE_A) == x == Times(Times(x, INVERSE_A), MULTIPLIER_A)
    ensures Times(Times(x, MULTIPLIER_B), INVERSE_B) == x == Times(Times(x, INVERSE_B), MULTIPLIER_B)
  {
    AInverts(x);
    InverseAInverts(x);
    BInverts(x);
    InverseBInverts(x);
  }

  lemma UnmixMix(x: Word)
    ensures Unmix64(Mix64(x)) == x
  {
    var a := Smear(x, 30);
    var b := Times(a, MULTIPLIER_A);
    var c := Smear(b, 27);
    var d := Times(c, MULTIPLIER_B);
    UnsmearSmear(x, 30);
    UnsmearSmear(b, 27);
    UnsmearSmear(d, 31);
    MultipliersInvert(a);
    MultipliersInvert(c);
  }

  lemma MixUnmix(y: Word)
    ensures Mix64(Unmix64(y)) == y
  {
    var d := Unsmear(y, 31);
    var c := Times(d, INVERSE_B);
    var b := Unsmear(c, 27);
    var a := Times(b, INVERSE_A);
    UnsmearSmear(y, 31);
    UnsmearSmear(c, 27);
    UnsmearSmear(a, 30);
    MultipliersInvert(d);
    MultipliersInvert(b);
  }

  /** The finaliser is a bijection on 64-bit words. */
  lemma MixBijective(y: Word)
    ensures exists x: Word :: Mix64(x) == y && forall x': Word | Mix64(x') == y :: x' == x
  {
    MixUnmix(y);
    forall x': Word | Mix64(x') == y ensures x' == Unmix64(y) { UnmixMix(x'); }
    assert Mix64(Unmix64(y)) == y;
  }

  function ScoreOf(peer: Text, keyHash: Word): Word { Mix64(XorWord(FnvSum(peer), keyHash)) }

  /** The score every peer gets for one key. */
  function PeerScore(keyHash: Word): Score { (p: Text) => ScoreOf(p, keyHash) }

  lemma TieIffSameSum(p: Text, q: Text, keyHash: Word)
    ensures PeerScore(keyHash)(p) == PeerScore(keyHash)(q) <==> FnvSum(p) == FnvSum(q)
  {
    var a, b := XorWord(FnvSum(p), keyHash), XorWord(FnvSum(q), keyHash);
    UnmixMix(a);
    UnmixMix(b);
    XorCancels(FnvSum(p), keyHash);
    XorCancels(FnvSum(q), keyHash);
  }

  // ---- the owner loop ----

  datatype Router = Router(self: Text, peers: seq<Text>)

  function OwnerOf(peers: seq<Text>, key: Text): Text { Choice(peers, PeerScore(FnvSum(key))) }

  method Owner(r: Router, key: Text) returns (peer: Text, isSelf: bool)
    ensures peer == OwnerOf(r.peers, key) && isSelf == (peer == r.self)
  {
    peer := Pick(r.peers, PeerScore(FnvSum(key)));
    isSelf := peer == r.self;
  }

  // ---- ownership across the cluster ----

  ghost predicate SumsDiffer(names: iset<Text>) {
    forall p, q | p in names && q in names && FnvSum(p) == FnvSum(q) :: p == q
  }

  lemma SumsSeparate(names: iset<Text>, keyHash: Word)
    requires SumsDiffer(names)
    ensures Separates(PeerScore(keyHash), names)
  {
    forall p, q | p in names && q in names && PeerScore(keyHash)(p) == PeerScore(keyHash)(q) ensures p == q {
      TieIffSameSum(p, q, keyHash);
    }
  }

  /** Numbered pods never share a sum: names that differ only in one byte, such as the digit of
      http://fruitfly-0:8080 and its siblings. */
  lemma NumberedPodsDiffer(names: iset<Text>, pre: Text, post: Text)
    requires forall p | p in names :: exists b: Byte :: p == pre + [b] + post
    ensures SumsDiffer(names)
  {
    forall p, q | p in names && q in names && FnvSum(p) == FnvSum(q) ensures p == q {
      var b: Byte :| p == pre + [b] + post;
      var c: Byte :| q == pre + [c] + post;
      OneByteApart(pre, b, c, post);
    }
  }

  /** No peer is idle: every peer of a list with distinct sums owns some key hash. */
  lemma EveryPeerOwns(peers: seq<Text>, p: Text)
    requires p in peers && [] !in peers && SumsDiffer(iset q | q in peers)
    ensures exists h: Word :: Choice(peers, PeerScore(h)) == p
  {
    var h := XorWord(FnvSum(p), Unmix64(WORDS - 1));
    XorCancels(FnvSum(p), Unmix64(WORDS - 1));
    MixUnmix(WORDS - 1);
    assert PeerScore(h)(p) == WORDS - 1;
    var i := ChoiceIsFirstBest(peers, PeerScore(h));
    var k :| 0 <= k < |peers| && peers[k] == p;
    TieIffSameSum(peers[i], p, h);
  }

  ghost predicate AgreeOnEveryKey(a: seq<Text>, b: seq<Text>) {
    forall key: Text :: OwnerOf(a, key) == OwnerOf(b, key)
  }

  /** Over a set of non-empty peer names, routers whose lists hold the same peers in whatever order agree
      on every key if and only if no two of the names have the same FNV sum. */
  lemma RoutersAgreeIff(names: iset<Text>)
    requires [] !in names
    ensures (forall a, b | a != [] && SameElements(a, b) && (forall p | p in a :: p in names) :: AgreeOnEveryKey(a, b))
            <==> SumsDiffer(names)
  {
    if SumsDiffer(names) {
      forall a, b | a != [] && SameElements(a, b) && (forall p | p in a :: p in names) ensures AgreeOnEveryKey(a, b) {
        forall key: Text ensures OwnerOf(a, key) == OwnerOf(b, key) {
          SumsSeparate(names, FnvSum(key));
          SameChoice(a, b, names, PeerScore(FnvSum(key)));
        }
      }
    } else {
      var p, q :| p in names && q in names && FnvSum(p) == FnvSum(q) && p != q;
      assert SameElements([p, q], [q, p]);
      TwinsDisagree(p, q, []);
      assert !AgreeOnEveryKey([p, q], [q, p]);
    }
  }

  /** Two names with one sum: each list order has its own owner, for every key. */
  lemma TwinsDisagree(p: Text, q: Text, key: Text)
    requires p != [] && q != [] && FnvSum(p) == FnvSum(q)
    ensures OwnerOf([p, q], key) == p && OwnerOf([q, p], key) == q
  {
    TieIffSameSum(p, q, FnvSum(key));
    FirstOfTwo(p, q, PeerScore(FnvSum(key)));
    FirstOfTwo(q, p, PeerScore(FnvSum(key)));
  }

  lemma FirstOfTwo(p: Text, q: Text, score: Score)
    requires p != [] && score(p) == score(q)
    ensures Choice([p, q], score) == p
  {
    assert [p, q][..1] == [p] && [p][..0] == [];
    assert Choice([p], score) == p;
  }

  /** With an agreed membership, exactly one pod takes each key for its own, whatever order each pod
      lists the peers in. */
  lemma ExactlyOneOwner(lists: map<Text, seq<Text>>, names: iset<Text>, key: Text)
    requires lists != map[] && [] !in names && SumsDiffer(names)
    requires forall p | p in lists :: p in names && forall q :: q in lists[p] <==> q in lists
    ensures exists p | p in lists ::
              && OwnerOf(lists[p], key) == p
              && forall q | q in lists :: OwnerOf(lists[q], key) == p
  {
    var any :| any in lists;
    SumsSeparate(names, FnvSum(key));
    assert any in lists[any];
    forall q | q in lists ensures OwnerOf(lists[q], key) == OwnerOf(lists[any], key) {
      SameChoice(lists[any], lists[q], names, PeerScore(FnvSum(key)));
    }
    SameChoice(lists[any], lists[any], names, PeerScore(FnvSum(key)));
  }

  /** Taking a pod out of the list moves only the keys it owned. */
  lemma RemovalMovesOnlyItsKeys(peers: seq<Text>, i: nat, rest: seq<Text>, key: Text)
    requires [] !in peers && Without(peers, i, rest) && OwnerOf(peers, key) != peers[i]
    ensures OwnerOf(rest, key) == OwnerOf(peers, key)
  {
    RemoveUnchosen(peers, i, rest, PeerScore(FnvSum(key)));
  }

  /** Adding a pod moves keys only to it. */
  lemma AdditionMovesOnlyToIt(peers: seq<Text>, i: nat, more: seq<Text>, key: Text)
    requires [] !in more && Without(more, i, peers)
    ensures OwnerOf(more, key) == OwnerOf(peers, key) || OwnerOf(more, key) == more[i]
  {
    AddPeer(peers, i, more, PeerScore(FnvSum(key)));
  }

  // ---- the "" sentinel ----

  /** With distinct sums, the loop picks a highest-scoring peer for every key hash if and only if no peer
      name is empty or the list ends with the empty name. */
  lemma SentinelHarmlessIff(peers: seq<Text>)
    requires peers != [] && SumsDiffer(iset p | p in peers)
    ensures (forall h: Word :: Wins(peers, PeerScore(h), Choice(peers, PeerScore(h)))) <==>
            [] !in peers || peers[|peers| - 1] == []
  {
    if [] !in peers {
      forall h: Word ensures Wins(peers, PeerScore(h), Choice(peers, PeerScore(h))) {
        var i := ChoiceIsFirstBest(peers, PeerScore(h));
      }
    } else if peers[|peers| - 1] == [] {
      forall h: Word ensures Wins(peers, PeerScore(h), Choice(peers, PeerScore(h))) {
        EmptyLastWins(peers, PeerScore(h));
      }
    } else {
      var h := XorWord(FnvSum([]), Unmix64(WORDS - 1));
      var b := Choice(peers, PeerScore(h));
      EmptyOnTop(h);
      if Wins(peers, PeerScore(h), b) {
        TieIffSameSum(b, [], h);
        DroppedEmpty(peers, PeerScore(h));
      }
    }
  }

  /** Keys that the empty name loses: beside one other peer, the key spelled like that peer scores 0 for it and
      more for the empty name, and still goes to the peer. */
  lemma EmptyLosesKey(p: Text)
    requires FnvSum(p) != FnvSum([])
    ensures OwnerOf([[], p], p) == p && ScoreOf(p, FnvSum(p)) < ScoreOf([], FnvSum(p))
  {
    var score := PeerScore(FnvSum(p));
    var peers: seq<Text> := [[], p];
    ChoiceStep(peers, 0, score);
    ChoiceStep(peers, 1, score);
    assert peers[..2] == peers && peers[..0] == [];
    TieIffSameSum(p, [], FnvSum(p));
    XorCancels(FnvSum(p), FnvSum(p));
    SelfScore(FnvSum(p));
  }

  lemma SelfScore(w: Word)
    ensures Mix64(XorWord(w, w)) == 0
  {
    XorSelf(w);
    assert XorWord(w, w) == 0;
    ShrOfZero(30);
    ShrOfZero(27);
    ShrOfZero(31);
  }

  /** For one, any peer named by a single odd byte, such as "a": a router configured with the peers "/" and "a"
      holds an empty name and "a", and sends the key "a" to the lower of its two scores. */
  lemma EmptyLosesOddByte(b: Byte)
    requires Odd(b) && b != SLASH
    ensures TrimRight([SLASH]) == [] && TrimRight([b]) == [b]
    ensures OwnerOf([[], [b]], [b]) == [b] && ScoreOf([b], FnvSum([b])) < ScoreOf([], FnvSum([b]))
  {
    assert [SLASH][..0] == [];
    OneByteSum(b);
    EmptyLosesKey([b]);
  }

  lemma OneByteSum(b: Byte)
    requires Odd(b)
    ensures FnvSum([b]) != FnvSum([])
  {
    var start, prime := FnvSum([]), PRIME;
    assert [b][..0] == [] && FnvSum([b]) == Times(XorWord(start, b), prime);
    XorParity(start, b);
    EvenTimes(XorWord(start, b), prime);
    assert Odd(start);
  }

  lemma EvenTimes(x: Word, c: Word)
    requires !Odd(x)
    ensures !Odd(Times(x, c))
  {
    assert x * c == 2 * (x / 2 * c);
  }

  lemma EmptyOnTop(h: Word)
    requires h == XorWord(FnvSum([]), Unmix64(WORDS - 1))
    ensures PeerScore(h)([]) == WORDS - 1
    ensures forall p: Text :: PeerScore(h)(p) <= WORDS - 1
  {
    XorCancels(FnvSum([]), Unmix64(WORDS - 1));
    MixUnmix(WORDS - 1);
  }

  lemma DroppedEmpty(peers: seq<Text>, score: Score)
    requires peers != [] && peers[|peers| - 1] != []
    ensures Choice(peers, score) != []
  {
  }

  // ---- construction ----

  const SLASH: Byte := 0x2f

  function TrimRight(s: Text): Text {
    if s != [] && s[|s| - 1] == SLASH then TrimRight(s[..|s| - 1]) else s
  }

  /** Refuses a list without this process; otherwise peers lose their trailing slashes. */
  method NewRouter(self: Text, peers: seq<Text>) returns (r: Option<Router>)
    ensures r.Some? <==> exists p :: p in peers && TrimRight(p) == TrimRight(self)
    ensures r.Some? ==> && r.value.self == TrimRight(self) && r.value.self in r.value.peers
                        && |r.value.peers| == |peers|
                        && forall i | 0 <= i < |peers| :: r.value.peers[i] == TrimRight(peers[i])
  {
    if |peers| == 0 { return None; }
    var me := TrimRight(self);
    var normalized: seq<Text> := [];
    var found := false;
    for i := 0 to |peers|
      invariant |normalized| == i
      invariant forall j | 0 <= j < i :: normalized[j] == TrimRight(peers[j])
      invariant found <==> me in normalized
    {
      normalized := normalized + [TrimRight(peers[i])];
      if normalized[i] == me { found := true; }
    }
    if !found {
      forall p | p in peers ensures TrimRight(p) != me {
        var j :| 0 <= j < |peers| && peers[j] == p;
        assert normalized[j] in normalized;
      }
      return None;
    }
    var j :| 0 <= j < |normalized| && normalized[j] == me;
    assert peers[j] in peers;
    return Some(Router(me, normalized));
  }

  /** Trailing slashes never split one pod into two ring entries. */
  lemma {:induction false} SlashesDoNotMatter(s: Text, slashes: Text)
    requires forall i | 0 <= i < |slashes| :: slashes[i] == SLASH
    ensures TrimRight(s + slashes) == TrimRight(s)
    ensures TrimRight(s) == [] || TrimRight(s)[|TrimRight(s)| - 1] != SLASH
  {
    var padded, n := s + slashes, |slashes|;
    if n > 0 {
      assert padded[|padded| - 1] == slashes[n - 1];
      assert padded[..|padded| - 1] == s + slashes[..n - 1];
      SlashesDoNotMatter(s, slashes[..n - 1]);
    } else {
      assert padded == s;
      if s != [] && s[|s| - 1] == SLASH { SlashesDoNotMatter(s[..|s| - 1], []); }
    }
  }
}
