/** The join graph: every table with its neighbours in insertion order.
    A row is Python's ordered dict `{neighbor: keys}` as the sequence of its items. */
module Graph {
  type Table = string
  type Column = string

  datatype KeyPair = KeyPair(from: Column, to: Column)

  /** The columns of one join: the default pair, and the other pairs that make the
      same join. `Plain` is a bare tuple, `Keys` one that remembers its alternates. */
  datatype JoinKeys =
    | Plain(pair: KeyPair)
    | Keys(pair: KeyPair, others: seq<KeyPair>)
  {
    function Alternates(): seq<KeyPair> {
      if Keys? then others else []
    }
  }

  datatype Edge = Edge(neighbor: Table, keys: JoinKeys)

  type Row = seq<Edge>
  type JoinGraph = map<Table, Row>

  function Neighbors(g: JoinGraph, t: Table): Row {
    if t in g then g[t] else []
  }

  ghost predicate Adjacent(g: JoinGraph, a: Table, b: Table) {
    exists e :: e in Neighbors(g, a) && e.neighbor == b
  }

  /** Every name the graph knows: the keys and whatever their rows point at. */
  ghost predicate IsNode(g: JoinGraph, t: Table) {
    t in g || exists a :: Adjacent(g, a, t)
  }
}
