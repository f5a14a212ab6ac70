/** The result of one retrieval (src/internal/retrieval/types.go). */
module RetrievalTypes {
  import opened Common

  /** A float32 score: a number, or one of the values that are none. */
  datatype Score = Finite(value: real) | PosInf | NegInf | NaN {
    /** Go's `>`. It leaves NaN unordered; here NaN stands below everything. */
    predicate Above(that: Score): (above: bool)
      ensures Finite? && that.Finite? ==> above == (value > that.value)
      ensures Finite? ==> above == that.NegInf? || that.NaN? || (that.Finite? && value > that.value)
      ensures this == that ==> !above
    {
      Level() > that.Level() || (Finite? && that.Finite? && value > that.value)
    }

    function Level(): int {
      match this
      case NaN => 0
      case NegInf => 1
      case Finite(_) => 2
      case PosInf => 3
    }
  }

  /** Go's `int`. */
  type Int64 = x: int | -0x8000_0000_0000_0000 <= x <= 0x7fff_ffff_ffff_ffff

  datatype ScoreBreakdown = ScoreBreakdown(finalScore: Score)

  datatype Fact = Fact(
    content: string, parentId: Id, relation: string, depth: Int64, rankingScore: Score,
    vectorScore: Score, recencyScore: Score, depthPenalty: Score, breakdown: Option<ScoreBreakdown>)

  datatype Node = Node(
    id: Id, category: string, content: string, parentId: Id, relation: string, depth: Int64, pathWeight: Score,
    rankingScore: Score, breakdown: Option<ScoreBreakdown>)

  class RetrievalResult {
    var seedNodes: seq<Node>
    var worldFacts: seq<Fact>
    var opinions: seq<Fact>
    var experiences: seq<Fact>
    var observations: seq<Fact>

    constructor ()
      ensures seedNodes == [] && worldFacts == [] && opinions == [] && experiences == [] && observations == []
    {
      seedNodes, worldFacts, opinions, experiences, observations := [], [], [], [], [];
    }

    /** The buckets in the order in which they are trimmed and reranked. */
    function Bucket(b: nat): seq<Fact>
      requires b < 4
      reads this
    {
      if b == 0 then worldFacts else if b == 1 then opinions else if b == 2 then experiences else observations
    }

    function Facts(): seq<Fact>
      reads this
    {
      worldFacts + opinions + experiences + observations
    }

    method SetBucket(b: nat, facts: seq<Fact>)
      requires b < 4
      modifies this`worldFacts, this`opinions, this`experiences, this`observations
      ensures forall c: nat | c < 4 :: Bucket(c) == if c == b then facts else old(Bucket(c))
    {
      if b == 0 {
        worldFacts := facts;
      } else if b == 1 {
        opinions := facts;
      } else if b == 2 {
        experiences := facts;
      } else {
        observations := facts;
      }
    }
  }
}
