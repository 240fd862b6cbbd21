/** The card universe of the game: four suits, eight faces, and a card as a
    (suit, face) pair compared by value. The faces are declared in their
    nominal order, lowest first; the enumeration order is what the deck
    construction walks through. */
module Cards {

  datatype Suit = Eichel | Gras | Herz | Schellen

  datatype Face = Sieben | Acht | Neun | Zehn | Unter | Ober | Koenig | Sau

  datatype Card = Card(suit: Suit, face: Face)

  /** Every suit once, in declaration order (iterating the Suit enumeration). */
  const AllSuits: seq<Suit> := [Eichel, Gras, Herz, Schellen]

  /** Every face once, in declaration order (iterating the Face enumeration). */
  const AllFaces: seq<Face> := [Sieben, Acht, Neun, Zehn, Unter, Ober, Koenig, Sau]

  /** Point value of each face (the CARD_SCORE table). Its values are a
      parameter of the model; only that they are natural numbers is used. */
  type ScoreTable = Face -> nat

  /** The suit enumeration lists every suit exactly once. */
  lemma SuitOnce(s: Suit)
    ensures multiset(AllSuits)[s] == 1
  {
  }

  /** The face enumeration lists every face exactly once. */
  lemma FaceOnce(f: Face)
    ensures multiset(AllFaces)[f] == 1
  {
  }
}
