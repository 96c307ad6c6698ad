/** Playing cards and the ten hand categories. */
module Cards {

  /** The four suits, in the order the deck is built. */
  datatype Suit = Spades | Hearts | Diamonds | Clubs

  /** Ranks run from Two = 2 up to Ace = 14. */
  type Rank = r: int | 2 <= r <= 14 witness 2

  const Two: Rank := 2
  const Three: Rank := 3
  const Four: Rank := 4
  const Five: Rank := 5
  const Ten: Rank := 10
  const Jack: Rank := 11
  const Queen: Rank := 12
  const King: Rank := 13
  const Ace: Rank := 14

  datatype Card = Card(rank: Rank, suit: Suit)

  /** The suit with the given position in the enumeration (0 = Spades). */
  function SuitOf(s: int): (su: Suit)
    requires 0 <= s < 4
    ensures SuitIndex(su) == s
  {
    if s == 0 then Spades else if s == 1 then Hearts else if s == 2 then Diamonds else Clubs
  }

  function SuitIndex(su: Suit): nat
  {
    match su
    case Spades => 0
    case Hearts => 1
    case Diamonds => 2
    case Clubs => 3
  }

  /** The ten categories, from weakest to strongest. */
  datatype HandRank =
    | HighCard | OnePair | TwoPair | ThreeOfAKind | Straight
    | Flush | FullHouse | FourOfAKind | StraightFlush | RoyalFlush
  {
    /** The category's position in the enumeration: HighCard = 0 ... RoyalFlush = 9. */
    function Ord(): nat
    {
      match this
      case HighCard => 0
      case OnePair => 1
      case TwoPair => 2
      case ThreeOfAKind => 3
      case Straight => 4
      case Flush => 5
      case FullHouse => 6
      case FourOfAKind => 7
      case StraightFlush => 8
      case RoyalFlush => 9
    }
  }

  /** Distinct categories sit at distinct positions, so comparing positions is a total order. */
  lemma OrdInjective(a: HandRank, b: HandRank)
    ensures a.Ord() == b.Ord() <==> a == b
    ensures a.Ord() <= RoyalFlush.Ord()
  {
  }
}
