/** Deck utilities: building the card universe, dealing it into equal hands,
    and summing card points. */
module Deck {
  import opened Cards
  import opened Seats

  /** Number of cards in a dealt hand (each dealt hand is one slice of 8). */
  const HandSize: nat := 8

  /** No card occurs twice in the list. */
  predicate Distinct(s: seq<Card>)
  {
    forall i, j :: 0 <= i < j < |s| ==> s[i] != s[j]
  }

  /** The set of cards in a list, as `set(...)` builds it. */
  function Elements(s: seq<Card>): set<Card>
  {
    set c | c in s
  }

  /** The union of a list of sets. */
  function UnionOf<T(!new)>(sets: seq<set<T>>): (u: set<T>)
    ensures forall x :: x in u <==> exists k :: 0 <= k < |sets| && x in sets[k]
  {
    if sets == [] then {}
    else
      var init := sets[..|sets| - 1];
      assert forall k :: 0 <= k < |init| ==> init[k] == sets[k];
      UnionOf(init) + sets[|sets| - 1]
  }

  // ---------------------------------------------------------------------------
  // Building the deck
  // ---------------------------------------------------------------------------

  /** The cards of face f in the given suits, in order (the inner loop). */
  function CardsOfFace(suits: seq<Suit>, f: Face): (cards: seq<Card>)
    ensures |cards| == |suits|
  {
    if suits == [] then [] else CardsOfFace(suits[..|suits| - 1], f) + [Card(suits[|suits| - 1], f)]
  }

  /** The deck in the order the nested loops append it, before the shuffle:
      for each face in turn, that face in every suit. */
  function DeckOrder(faces: seq<Face>): (deck: seq<Card>)
    ensures |deck| == |AllSuits| * |faces|
  {
    if faces == [] then []
    else DeckOrder(faces[..|faces| - 1]) + CardsOfFace(AllSuits, faces[|faces| - 1])
  }

  lemma {:induction false} CardsOfFaceCount(suits: seq<Suit>, f: Face, c: Card)
    ensures multiset(CardsOfFace(suits, f))[c] == if c.face == f then multiset(suits)[c.suit] else 0
  {
    if suits != [] {
      var init, last := suits[..|suits| - 1], suits[|suits| - 1];
      assert suits == init + [last];
      CardsOfFaceCount(init, f, c);
    }
  }

  /** Each card occurs in the unshuffled deck exactly as often as its face
      occurs in `faces`: for a list of distinct faces, every (suit, face)
      pair with a listed face exactly once and no other card. */
  lemma {:induction false} DeckOrderCount(faces: seq<Face>, c: Card)
    ensures multiset(DeckOrder(faces))[c] == multiset(faces)[c.face]
  {
    if faces != [] {
      var init, last := faces[..|faces| - 1], faces[|faces| - 1];
      assert faces == init + [last];
      DeckOrderCount(init, c);
      CardsOfFaceCount(AllSuits, last, c);
      SuitOnce(c.suit);
    }
  }

  lemma SwapPermutes(s: seq<Card>, i: nat, j: nat)
    requires i < |s| && j < |s|
    ensures multiset(s[i := s[j]][j := s[i]]) == multiset(s)
  {
  }

  /** Builds a deck of the given faces: for every face, every suit, appended in
      that order; then shuffles it in place. The random generator is the
      parameter `draw`: step i of the shuffle swaps position i with position
      `draw(i) % (i + 1)`, as a Fisher-Yates shuffle does with a random number
      below i + 1. Whatever the draws, the result is a permutation of the
      construction order, holds every card as often as its face is listed, and
      carries |AllSuits| times the points of the listed faces. */
  method CreateShuffledDeck(faces: seq<Face>, draw: nat -> nat) returns (deck: seq<Card>)
    ensures |deck| == |AllSuits| * |faces|
    ensures multiset(deck) == multiset(DeckOrder(faces))
    ensures forall c :: multiset(deck)[c] == multiset(faces)[c.face]
    ensures forall score :: CountScore(deck, score) == |AllSuits| * FaceTotal(faces, score)
  {
    deck := [];
    for i := 0 to |faces|
      invariant deck == DeckOrder(faces[..i])
    {
      for j := 0 to |AllSuits|
        invariant deck == DeckOrder(faces[..i]) + CardsOfFace(AllSuits[..j], faces[i])
      {
        assert AllSuits[..j + 1][..j] == AllSuits[..j];
        deck := deck + [Card(AllSuits[j], faces[i])];
      }
      assert faces[..i + 1][..i] == faces[..i];
      assert AllSuits[..|AllSuits|] == AllSuits;
    }
    assert faces[..|faces|] == faces;
    ghost var ordered := deck;

    var i := |deck| - 1;
    while i > 0
      invariant i < |deck| == |ordered|
      invariant multiset(deck) == multiset(ordered)
    {
      var j := draw(i) % (i + 1);
      SwapPermutes(deck, i, j);
      deck := deck[i := deck[j]][j := deck[i]];
      i := i - 1;
    }

    forall c: Card | true
      ensures multiset(deck)[c] == multiset(faces)[c.face]
    {
      DeckOrderCount(faces, c);
    }
    forall score: ScoreTable | true
      ensures CountScore(deck, score) == |AllSuits| * FaceTotal(faces, score)
    {
      CountScorePermutation(deck, ordered, score);
      DeckOrderScore(faces, score);
    }
  }

  /** The faces of `faces` that are not excluded, in their order (the list
      comprehension that drops SIEBEN and ACHT for the three-player deck). */
  function FacesExcept(faces: seq<Face>, excluded: set<Face>): (kept: seq<Face>)
    ensures |kept| <= |faces|
  {
    if faces == [] then []
    else (if faces[0] in excluded then [] else [faces[0]]) + FacesExcept(faces[1..], excluded)
  }

  /** Filtering keeps every face that is not excluded as often as it was
      listed, and drops the excluded ones. */
  lemma {:induction false} FacesExceptCount(faces: seq<Face>, excluded: set<Face>, f: Face)
    ensures multiset(FacesExcept(faces, excluded))[f] == if f in excluded then 0 else multiset(faces)[f]
  {
    if faces != [] {
      assert faces == [faces[0]] + faces[1..];
      FacesExceptCount(faces[1..], excluded, f);
    }
  }

  // ---------------------------------------------------------------------------
  // Dealing
  // ---------------------------------------------------------------------------

  /** The first `count` consecutive slices of HandSize cards, each as a set. */
  function Deal(deck: seq<Card>, count: nat): (hands: seq<set<Card>>)
    requires HandSize * count <= |deck|
  {
    seq(count, k requires 0 <= k < count => Elements(deck[HandSize * k .. HandSize * k + HandSize]))
  }

  lemma {:induction false} DistinctElements(s: seq<Card>)
    requires Distinct(s)
    ensures |Elements(s)| == |s|
  {
    if s != [] {
      assert Distinct(s[1..]);
      DistinctElements(s[1..]);
      assert Elements(s) == {s[0]} + Elements(s[1..]);
      assert s[0] !in Elements(s[1..]);
    }
  }

  lemma InSlice(s: seq<Card>, a: nat, b: nat, c: Card) returns (i: nat)
    requires a <= b <= |s| && c in s[a..b]
    ensures a <= i < b && s[i] == c
  {
    var k :| 0 <= k < b - a && s[a..b][k] == c;
    i := a + k;
  }

  /** A slice of a list without repeated cards has none either. */
  lemma SliceDistinct(s: seq<Card>, a: nat, b: nat)
    requires a <= b <= |s| && Distinct(s)
    ensures Distinct(s[a..b])
  {
    var slice := s[a..b];
    forall i, j | 0 <= i < j < |slice|
      ensures slice[i] != slice[j]
    {
      assert slice[i] == s[a + i] && slice[j] == s[a + j];
    }
  }

  /** Two non-overlapping slices of a list without repeated cards share no card. */
  lemma SlicesDisjoint(s: seq<Card>, a: nat, b: nat, c: nat, d: nat)
    requires a <= b <= c <= d <= |s| && Distinct(s)
    ensures Elements(s[a..b]) !! Elements(s[c..d])
  {
    forall x | x in Elements(s[a..b])
      ensures x !in Elements(s[c..d])
    {
      var i := InSlice(s, a, b, x);
      var other := s[c..d];
      assert forall j :: 0 <= j < |other| ==> other[j] == s[c + j] != x;
    }
  }

  /** Card i of the deck lands in hand i / HandSize. */
  lemma DealtTo(deck: seq<Card>, count: nat, i: nat)
    requires |deck| == HandSize * count && i < |deck|
    ensures i / HandSize < count && deck[i] in Deal(deck, count)[i / HandSize]
  {
    var k := i / HandSize;
    assert HandSize * k <= i < HandSize * k + HandSize;
    assert deck[HandSize * k .. HandSize * k + HandSize][i - HandSize * k] == deck[i];
  }

  /** Slicing a deck without repeated cards into hands gives hands of
      HandSize cards each, pairwise disjoint, whose union is the deck. */
  lemma DealPartition(deck: seq<Card>, count: nat)
    requires |deck| == HandSize * count && Distinct(deck)
    ensures |Deal(deck, count)| == count
    ensures forall k :: 0 <= k < count ==> |Deal(deck, count)[k]| == HandSize
    ensures forall k, l :: 0 <= k < l < count ==> Deal(deck, count)[k] !! Deal(deck, count)[l]
    ensures UnionOf(Deal(deck, count)) == Elements(deck)
  {
    var hands := Deal(deck, count);
    forall k | 0 <= k < count
      ensures |hands[k]| == HandSize
    {
      SliceDistinct(deck, HandSize * k, HandSize * k + HandSize);
      DistinctElements(deck[HandSize * k .. HandSize * k + HandSize]);
    }
    forall k, l | 0 <= k < l < count
      ensures hands[k] !! hands[l]
    {
      SlicesDisjoint(deck, HandSize * k, HandSize * k + HandSize, HandSize * l, HandSize * l + HandSize);
    }
    forall c | c in Elements(deck)
      ensures c in UnionOf(hands)
    {
      var i :| 0 <= i < |deck| && deck[i] == c;
      DealtTo(deck, count, i);
    }
    forall c | c in UnionOf(hands)
      ensures c in Elements(deck)
    {
      var k :| 0 <= k < count && c in hands[k];
      var i := InSlice(deck, HandSize * k, HandSize * k + HandSize, c);
    }
  }

  /** A card occurring twice counts at least twice. */
  lemma CountAtLeast(s: seq<Card>, i: nat, j: nat)
    requires i < j < |s|
    ensures multiset(s)[s[i]] >= 1 + (if s[i] == s[j] then 1 else 0)
  {
    assert s == s[..j] + s[j..];
    assert s[i] == s[..j][i];
    assert s[j] == s[j..][0];
  }

  lemma DistinctFromCounts(s: seq<Card>)
    requires forall c :: multiset(s)[c] <= 1
    ensures Distinct(s)
  {
    forall i, j | 0 <= i < j < |s|
      ensures s[i] != s[j]
    {
      CountAtLeast(s, i, j);
    }
  }

  /** A deck that holds every card as often as its face is listed, for a list
      of distinct faces, repeats no card and holds exactly the cards of the
      listed faces. */
  lemma DeckOfDistinctFaces(deck: seq<Card>, faces: seq<Face>)
    requires forall c :: multiset(deck)[c] == multiset(faces)[c.face]
    requires forall f :: multiset(faces)[f] <= 1
    ensures Distinct(deck)
    ensures forall c :: c in Elements(deck) <==> c.face in faces
  {
    DistinctFromCounts(deck);
    forall c
      ensures c in Elements(deck) <==> c.face in faces
    {
      assert c in deck <==> c in multiset(deck);
      assert c.face in faces <==> c.face in multiset(faces);
    }
  }

  /** The faces of the three-player deck: all but SIEBEN and ACHT. */
  lemma ThreePlayerFaces()
    ensures FacesExcept(AllFaces, {Sieben, Acht}) == [Neun, Zehn, Unter, Ober, Koenig, Sau]
  {
  }

  /** The three-player deck lists six faces. */
  lemma ThreePlayerFaceLength()
    ensures |FacesExcept(AllFaces, {Sieben, Acht})| == 6
  {
    ThreePlayerFaces();
  }

  /** A shuffled 32-card deck split into four hands of eight: the hands are
      pairwise disjoint and together hold every card. */
  method CreateShuffled4PlayerHands(draw: nat -> nat) returns (hands: seq<set<Card>>)
    ensures |hands| == 4
    ensures forall k :: 0 <= k < 4 ==> |hands[k]| == HandSize
    ensures forall k, l :: 0 <= k < l < 4 ==> hands[k] !! hands[l]
    ensures forall c: Card :: c in UnionOf(hands)
  {
    var deck := CreateShuffledDeck(AllFaces, draw);
    hands := [Elements(deck[0..8]), Elements(deck[8..16]), Elements(deck[16..24]), Elements(deck[24..32])];
    forall f: Face
      ensures multiset(AllFaces)[f] == 1
    {
      FaceOnce(f);
    }
    assert |AllSuits| == 4 && |AllFaces| == 8 && |deck| == 32;
    FourPlayerDeal(deck, AllFaces, hands);
  }

  /** Four slices of eight from a 32-card deck that holds every card once. */
  lemma FourPlayerDeal(deck: seq<Card>, faces: seq<Face>, hands: seq<set<Card>>)
    requires |deck| == 32
    requires forall c :: multiset(deck)[c] == multiset(faces)[c.face]
    requires forall f :: multiset(faces)[f] == 1
    requires hands == [Elements(deck[0..8]), Elements(deck[8..16]), Elements(deck[16..24]), Elements(deck[24..32])]
    ensures |hands| == 4
    ensures forall k :: 0 <= k < 4 ==> |hands[k]| == HandSize
    ensures forall k, l :: 0 <= k < l < 4 ==> hands[k] !! hands[l]
    ensures forall c: Card :: c in UnionOf(hands)
  {
    DeckOfDistinctFaces(deck, faces);
    assert hands == Deal(deck, 4);
    DealPartition(deck, 4);
    forall c: Card
      ensures c in UnionOf(hands)
    {
      assert c.face in multiset(faces);
    }
  }

  /** Three slices of eight from a 24-card deck that holds each card of the
      faces other than SIEBEN and ACHT once. */
  lemma ThreePlayerDeal(deck: seq<Card>, faces: seq<Face>, all: seq<Face>, hands: seq<set<Card>>)
    requires |deck| == 24
    requires forall c :: multiset(deck)[c] == multiset(faces)[c.face]
    requires faces == FacesExcept(all, {Sieben, Acht})
    requires forall f :: multiset(all)[f] == 1
    requires hands == [Elements(deck[0..8]), Elements(deck[8..16]), Elements(deck[16..24])]
    ensures |hands| == 3
    ensures forall k :: 0 <= k < 3 ==> |hands[k]| == HandSize
    ensures forall k, l :: 0 <= k < l < 3 ==> hands[k] !! hands[l]
    ensures forall c: Card :: c in UnionOf(hands) <==> c.face != Sieben && c.face != Acht
    ensures forall k, c :: 0 <= k < 3 && c in hands[k] ==> c.face != Sieben && c.face != Acht
  {
    forall f: Face
      ensures multiset(faces)[f] <= 1
      ensures f in faces <==> f != Sieben && f != Acht
    {
      FacesExceptCount(all, {Sieben, Acht}, f);
      assert f in faces <==> f in multiset(faces);
    }
    DeckOfDistinctFaces(deck, faces);
    assert hands == Deal(deck, 3);
    DealPartition(deck, 3);
    forall c: Card
      ensures c in UnionOf(hands) <==> c.face != Sieben && c.face != Acht
    {
      assert c in Elements(deck) <==> c.face in faces;
    }
    forall k, c | 0 <= k < 3 && c in hands[k]
      ensures c.face != Sieben && c.face != Acht
    {
      assert c in UnionOf(hands);
    }
  }

  /** A shuffled 24-card deck without SIEBEN and ACHT split into three hands
      of eight: the hands are pairwise disjoint, together hold exactly the
      cards of the other six faces, and none holds a SIEBEN or an ACHT. */
  method CreateShuffled3PlayerHands(draw: nat -> nat) returns (hands: seq<set<Card>>)
    ensures |hands| == 3
    ensures forall k :: 0 <= k < 3 ==> |hands[k]| == HandSize
    ensures forall k, l :: 0 <= k < l < 3 ==> hands[k] !! hands[l]
    ensures forall c: Card :: c in UnionOf(hands) <==> c.face != Sieben && c.face != Acht
    ensures forall k, c :: 0 <= k < 3 && c in hands[k] ==> c.face != Sieben && c.face != Acht
  {
    var faces := FacesExcept(AllFaces, {Sieben, Acht});
    ThreePlayerFaceLength();
    var deck := CreateShuffledDeck(faces, draw);
    hands := [Elements(deck[0..8]), Elements(deck[8..16]), Elements(deck[16..24])];
    forall f: Face
      ensures multiset(AllFaces)[f] == 1
    {
      FaceOnce(f);
    }
    assert |AllSuits| == 4 && |deck| == 24;
    ThreePlayerDeal(deck, faces, AllFaces, hands);
  }

  // ---------------------------------------------------------------------------
  // Card points
  // ---------------------------------------------------------------------------

  /** The points of a list of cards: CARD_SCORE of each card's face, summed. */
  function CountScore(cards: seq<Card>, score: ScoreTable): nat
  {
    if cards == [] then 0 else score(cards[0].face) + CountScore(cards[1..], score)
  }

  /** The points of a list of faces, one card's worth each. */
  function FaceTotal(faces: seq<Face>, score: ScoreTable): nat
  {
    if faces == [] then 0 else FaceTotal(faces[..|faces| - 1], score) + score(faces[|faces| - 1])
  }

  /** Counting is additive over concatenation. */
  lemma {:induction false} CountScoreConcat(a: seq<Card>, b: seq<Card>, score: ScoreTable)
    ensures CountScore(a + b, score) == CountScore(a, score) + CountScore(b, score)
  {
    if a == [] {
      assert a + b == b;
    } else {
      assert (a + b)[1..] == a[1..] + b;
      CountScoreConcat(a[1..], b, score);
    }
  }

  /** The points of a multiset of cards, weighing every card of `universe`
      by how often it occurs. */
  function Weighted(universe: seq<Card>, m: multiset<Card>, score: ScoreTable): nat
  {
    if universe == [] then 0
    else m[universe[0]] * score(universe[0].face) + Weighted(universe[1..], m, score)
  }

  /** The points of a multiset of cards, weighed over the whole 32-card universe. */
  function MultisetScore(m: multiset<Card>, score: ScoreTable): nat
  {
    Weighted(DeckOrder(AllFaces), m, score)
  }

  lemma {:induction false} WeightedAdditive(u: seq<Card>, m1: multiset<Card>, m2: multiset<Card>, score: ScoreTable)
    ensures Weighted(u, m1 + m2, score) == Weighted(u, m1, score) + Weighted(u, m2, score)
  {
    if u != [] {
      WeightedAdditive(u[1..], m1, m2, score);
      var x := u[0];
      assert (m1 + m2)[x] * score(x.face) == m1[x] * score(x.face) + m2[x] * score(x.face);
    }
  }

  lemma {:induction false} WeightedEmpty(u: seq<Card>, score: ScoreTable)
    ensures Weighted(u, multiset{}, score) == 0
  {
    if u != [] {
      WeightedEmpty(u[1..], score);
    }
  }

  lemma {:induction false} WeightedSingleton(u: seq<Card>, x: Card, score: ScoreTable)
    ensures Weighted(u, multiset{x}, score) == multiset(u)[x] * score(x.face)
  {
    if u != [] {
      var first, rest := u[0], u[1..];
      WeightedSingleton(rest, x, score);
      assert u == [first] + rest;
      var k, w := multiset(rest)[x], score(x.face);
      if first == x {
        assert multiset(u)[x] == k + 1;
        calc {
          Weighted(u, multiset{x}, score);
          1 * w + Weighted(rest, multiset{x}, score);
          w + k * w;
          { MulSucc(w, k); }
          (k + 1) * w;
        }
      } else {
        assert multiset(u)[x] == k;
        assert multiset{x}[first] == 0;
      }
    }
  }

  /** The points of a multiset add up over multiset union. */
  lemma MultisetScoreAdditive(m1: multiset<Card>, m2: multiset<Card>, score: ScoreTable)
    ensures MultisetScore(m1 + m2, score) == MultisetScore(m1, score) + MultisetScore(m2, score)
  {
    WeightedAdditive(DeckOrder(AllFaces), m1, m2, score);
  }

  lemma {:induction false} CountScoreIsWeighted(cards: seq<Card>, u: seq<Card>, score: ScoreTable)
    requires forall c :: multiset(u)[c] == 1
    ensures CountScore(cards, score) == Weighted(u, multiset(cards), score)
  {
    if cards == [] {
      WeightedEmpty(u, score);
    } else {
      var x := cards[0];
      assert cards == [x] + cards[1..];
      assert multiset(cards) == multiset{x} + multiset(cards[1..]);
      CountScoreIsWeighted(cards[1..], u, score);
      WeightedAdditive(u, multiset{x}, multiset(cards[1..]), score);
      WeightedSingleton(u, x, score);
    }
  }

  /** Every card occurs exactly once in the card universe. */
  lemma UniverseOnce(c: Card)
    ensures multiset(DeckOrder(AllFaces))[c] == 1
  {
    DeckOrderCount(AllFaces, c);
    FaceOnce(c.face);
  }

  /** Counting a list gives the points of the multiset of its cards. */
  lemma CountScoreIsMultisetScore(cards: seq<Card>, score: ScoreTable)
    ensures CountScore(cards, score) == MultisetScore(multiset(cards), score)
  {
    forall c: Card
      ensures multiset(DeckOrder(AllFaces))[c] == 1
    {
      UniverseOnce(c);
    }
    CountScoreIsWeighted(cards, DeckOrder(AllFaces), score);
  }

  /** The points of a list do not depend on the order of its cards. */
  lemma CountScorePermutation(a: seq<Card>, b: seq<Card>, score: ScoreTable)
    requires multiset(a) == multiset(b)
    ensures CountScore(a, score) == CountScore(b, score)
  {
    CountScoreIsMultisetScore(a, score);
    CountScoreIsMultisetScore(b, score);
  }

  lemma {:induction false} CardsOfFaceScore(suits: seq<Suit>, f: Face, score: ScoreTable)
    ensures CountScore(CardsOfFace(suits, f), score) == |suits| * score(f)
  {
    if suits != [] {
      var init := suits[..|suits| - 1];
      CardsOfFaceScore(init, f, score);
      CountScoreConcat(CardsOfFace(init, f), [Card(suits[|suits| - 1], f)], score);
      assert |suits| * score(f) == |init| * score(f) + score(f);
    }
  }

  /** The unshuffled deck carries one card's points per suit for each listed face. */
  lemma {:induction false} DeckOrderScore(faces: seq<Face>, score: ScoreTable)
    ensures CountScore(DeckOrder(faces), score) == |AllSuits| * FaceTotal(faces, score)
  {
    if faces != [] {
      var init, last := faces[..|faces| - 1], faces[|faces| - 1];
      DeckOrderScore(init, score);
      CountScoreConcat(DeckOrder(init), CardsOfFace(AllSuits, last), score);
      CardsOfFaceScore(AllSuits, last, score);
    }
  }

  /** A collection holding every card exactly once carries the points of the
      whole deck: every face's points once per suit. */
  lemma FullDeckScore(m: multiset<Card>, score: ScoreTable)
    requires forall c :: m[c] == 1
    ensures MultisetScore(m, score) == |AllSuits| * FaceTotal(AllFaces, score)
  {
    var deck := DeckOrder(AllFaces);
    forall c: Card
      ensures m[c] == multiset(deck)[c]
    {
      UniverseOnce(c);
    }
    assert m == multiset(deck);
    CountScoreIsMultisetScore(deck, score);
    DeckOrderScore(AllFaces, score);
  }
}
