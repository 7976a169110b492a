/** Splitting a run-together column token into words the query used. */
module SegmentToken {
  import opened Names

  // --- The reference reading ---

  function Concat(pieces: seq<string>): string {
    if pieces == [] then "" else pieces[0] + Concat(pieces[1..])
  }

  ghost predicate Words(vocab: set<string>, minPiece: int, pieces: seq<string>) {
    forall p :: p in pieces ==> p in vocab && |p| >= minPiece
  }

  ghost predicate IsSegmentation(token: string, vocab: set<string>, minPiece: int, pieces: seq<string>) {
    pieces != [] && Concat(pieces) == token && Words(vocab, minPiece, pieces)
  }

  ghost predicate HasSegmentation(token: string, vocab: set<string>, minPiece: int) {
    exists pieces :: IsSegmentation(token, vocab, minPiece, pieces)
  }

  // --- What the table holds ---

  predicate IsPiece(token: string, vocab: set<string>, minPiece: int, i: nat, j: nat) {
    i + minPiece <= j <= |token| && i <= j && token[i..j] in vocab
  }

  /** Some run of words ends at `j`. */
  ghost predicate Reach(token: string, vocab: set<string>, minPiece: int, j: nat)
    requires minPiece >= 1
    decreases j
  {
    j == 0 || exists i: nat :: i < j && IsPiece(token, vocab, minPiece, i, j) && Reach(token, vocab, minPiece, i)
  }

  /** A run of words may end with the piece from `i` to `j`. */
  ghost predicate Starts(token: string, vocab: set<string>, minPiece: int, i: nat, j: nat)
    requires minPiece >= 1
  {
    IsPiece(token, vocab, minPiece, i, j) && Reach(token, vocab, minPiece, i)
  }

  /** The back pointer at `j`: the start of the longest possible last piece. */
  ghost predicate IsBack(token: string, vocab: set<string>, minPiece: int, i: nat, j: nat)
    requires minPiece >= 1
  {
    i < j && Starts(token, vocab, minPiece, i, j) && forall k: nat :: k < i ==> !Starts(token, vocab, minPiece, k, j)
  }

  /** From `c` on, the token is cut where the back pointers say. */
  ghost predicate CutAtBacks(token: string, vocab: set<string>, minPiece: int, pieces: seq<string>, c: nat)
    requires minPiece >= 1
    decreases |pieces|
  {
    if pieces == [] then c == |token|
    else
      var e := c + |pieces[0]|;
      && c < e <= |token| && pieces[0] == token[c..e]
      && IsBack(token, vocab, minPiece, c, e)
      && CutAtBacks(token, vocab, minPiece, pieces[1..], e)
  }

  lemma {:induction false} WordsReach(token: string, vocab: set<string>, minPiece: int, pieces: seq<string>, c: nat)
    requires minPiece >= 1 && c <= |token| && Concat(pieces) == token[c..]
    requires Words(vocab, minPiece, pieces) && Reach(token, vocab, minPiece, c)
    ensures Reach(token, vocab, minPiece, |token|)
    decreases |pieces|
  {
    if pieces == [] {
      assert c == |token|;
    } else {
      var e := c + |pieces[0]|;
      assert pieces[0] in pieces;
      assert token[c..][..|pieces[0]|] == pieces[0] == token[c..e];
      assert token[c..][|pieces[0]|..] == Concat(pieces[1..]) == token[e..];
      assert Starts(token, vocab, minPiece, c, e);
      assert Words(vocab, minPiece, pieces[1..]);
      WordsReach(token, vocab, minPiece, pieces[1..], e);
    }
  }

  lemma {:induction false} CutsAreWords(token: string, vocab: set<string>, minPiece: int, pieces: seq<string>, c: nat)
    requires minPiece >= 1 && c <= |token| && CutAtBacks(token, vocab, minPiece, pieces, c)
    ensures Concat(pieces) == token[c..] && Words(vocab, minPiece, pieces)
    decreases |pieces|
  {
    if pieces != [] {
      var e := c + |pieces[0]|;
      CutsAreWords(token, vocab, minPiece, pieces[1..], e);
      assert token[c..] == token[c..e] + token[e..];
      assert pieces == [pieces[0]] + pieces[1..];
    }
  }

  /** A word is cut into itself: its own back pointer is the start of the token. */
  lemma CutOfAWord(token: string, vocab: set<string>, minPiece: int, pieces: seq<string>)
    requires minPiece >= 1 && |token| >= minPiece && CutAtBacks(token, vocab, minPiece, pieces, 0)
    ensures |pieces| > 1 <==> token !in vocab
  {
    assert token[0..|token|] == token;
    CutsAreWords(token, vocab, minPiece, pieces, 0);
    if |pieces| == 1 {
      assert pieces[0] == token && pieces[0] in pieces;
    } else if token in vocab {
      assert Starts(token, vocab, minPiece, 0, |token|);
      LastCut(token, vocab, minPiece, pieces, 0);
      assert false;
    }
  }

  lemma {:induction false} LastCut(token: string, vocab: set<string>, minPiece: int, pieces: seq<string>, c: nat)
    requires minPiece >= 1 && CutAtBacks(token, vocab, minPiece, pieces, c) && |pieces| > 1
    ensures exists i: nat :: c < i && IsBack(token, vocab, minPiece, i, |token|)
    decreases |pieces|
  {
    var e := c + |pieces[0]|;
    if |pieces| == 2 {
      assert pieces[1..][1..] == [];
      assert CutAtBacks(token, vocab, minPiece, pieces[1..], e);
      assert CutAtBacks(token, vocab, minPiece, [], e + |pieces[1..][0]|);
      assert IsBack(token, vocab, minPiece, e, |token|);
    } else {
      LastCut(token, vocab, minPiece, pieces[1..], e);
    }
  }

  lemma TwoPieces(vocab: set<string>, minPiece: int, pieces: seq<string>)
    requires |pieces| > 1 && Words(vocab, minPiece, pieces)
    ensures |Concat(pieces)| >= 2 * minPiece
  {
    assert pieces[0] in pieces && pieces[1] in pieces && pieces[1..][0] == pieces[1];
    assert Concat(pieces[1..]) == pieces[1] + Concat(pieces[1..][1..]);
  }

  /** A token too short for two pieces is a word if it can be segmented at all. */
  lemma TooShort(token: string, vocab: set<string>, minPiece: int)
    requires minPiece >= 1 && |token| < 2 * minPiece && HasSegmentation(token, vocab, minPiece)
    ensures token in vocab
  {
    var pieces :| IsSegmentation(token, vocab, minPiece, pieces);
    assert pieces[0] in pieces;
    if |pieces| > 1 {
      TwoPieces(vocab, minPiece, pieces);
      assert false;
    }
    assert Concat(pieces[1..]) == "";
    assert pieces[0] + "" == pieces[0];
  }

  lemma ReachIffSegmented(token: string, vocab: set<string>, minPiece: int, pieces: seq<string>)
    requires minPiece >= 1 && token != "" && CutAtBacks(token, vocab, minPiece, pieces, 0)
    ensures IsSegmentation(token, vocab, minPiece, pieces)
  {
    CutsAreWords(token, vocab, minPiece, pieces, 0);
    assert token[0..] == token;
  }

  lemma UnreachedIsUnsegmented(token: string, vocab: set<string>, minPiece: int)
    requires minPiece >= 1 && !Reach(token, vocab, minPiece, |token|)
    ensures !HasSegmentation(token, vocab, minPiece)
  {
    forall pieces | IsSegmentation(token, vocab, minPiece, pieces)
      ensures false
    {
      assert token[0..] == token;
      WordsReach(token, vocab, minPiece, pieces, 0);
    }
  }

  // --- intent_builder.segment_token ---

  /** What the two arrays say about `j` once the starts below `i` have been tried. */
  ghost predicate TableAt(token: string, vocab: set<string>, minPiece: int, i: nat, j: nat, reached: bool,
                          back: Option<nat>)
    requires minPiece >= 1
  {
    && (reached <==> j == 0 || exists k: nat :: k < i && k < j && Starts(token, vocab, minPiece, k, j))
    && (j > 0 && reached ==> back.Some? && back.value < i && IsBack(token, vocab, minPiece, back.value, j))
  }

  lemma Settled(token: string, vocab: set<string>, minPiece: int, i: nat, j: nat, reached: bool, back: Option<nat>)
    requires minPiece >= 1 && j <= i && TableAt(token, vocab, minPiece, i, j, reached, back)
    ensures reached <==> Reach(token, vocab, minPiece, j)
  {
    if j > 0 && Reach(token, vocab, minPiece, j) {
      var k: nat :| k < j && IsPiece(token, vocab, minPiece, k, j) && Reach(token, vocab, minPiece, k);
      assert Starts(token, vocab, minPiece, k, j);
    }
  }

  /** One more start tried leaves the entry as it was, or makes it the new back pointer. */
  lemma TriedStart(token: string, vocab: set<string>, minPiece: int, i: nat, j: nat, reached: bool, back: Option<nat>)
    requires minPiece >= 1 && TableAt(token, vocab, minPiece, i, j, reached, back)
    ensures var hit := !reached && IsPiece(token, vocab, minPiece, i, j) && Reach(token, vocab, minPiece, i);
            TableAt(token, vocab, minPiece, i + 1, j, reached || hit, if hit then Some(i) else back)
  {
    if j > 0 && i < j && Starts(token, vocab, minPiece, i, j) {
      if !reached {
        forall k: nat | k < i
          ensures !Starts(token, vocab, minPiece, k, j)
        {
        }
        assert IsBack(token, vocab, minPiece, i, j);
      }
    }
  }

  method FillFrom(token: string, vocab: set<string>, minPiece: int, i: nat, reach: array<bool>,
                  back: array<Option<nat>>)
    requires minPiece >= 1 && i < |token| && reach.Length == back.Length == |token| + 1
    requires Reach(token, vocab, minPiece, i)
    requires forall j :: 0 <= j <= |token| ==> TableAt(token, vocab, minPiece, i, j, reach[j], back[j])
    modifies reach, back
    ensures forall j :: 0 <= j <= |token| ==> TableAt(token, vocab, minPiece, i + 1, j, reach[j], back[j])
  {
    var j := i + minPiece;
    forall k | 0 <= k <= |token|
      ensures k < i + minPiece ==> TableAt(token, vocab, minPiece, i + 1, k, reach[k], back[k])
    {
      TriedStart(token, vocab, minPiece, i, k, reach[k], back[k]);
    }
    while j <= |token|
      invariant i + minPiece <= j
      invariant forall k :: 0 <= k <= |token| ==>
                  TableAt(token, vocab, minPiece, if k < j then i + 1 else i, k, reach[k], back[k])
    {
      TriedStart(token, vocab, minPiece, i, j, reach[j], back[j]);
      if !reach[j] && token[i..j] in vocab {
        reach[j], back[j] := true, Some(i);
      }
      j := j + 1;
    }
  }

  method SegmentToken(token: string, vocab: set<string>, minPiece: int) returns (r: Option<seq<string>>)
    requires minPiece >= 1
    ensures r.Some? ==> IsSegmentation(token, vocab, minPiece, r.value) && |r.value| > 1
    ensures r.Some? ==> CutAtBacks(token, vocab, minPiece, r.value, 0)
    ensures r.Some? <==> token !in vocab && HasSegmentation(token, vocab, minPiece)
  {
    var n := |token|;
    if n < minPiece * 2 {
      if HasSegmentation(token, vocab, minPiece) { TooShort(token, vocab, minPiece); }
      return None;
    }
    var reach := new bool[n + 1](_ => false);
    var back := new Option<nat>[n + 1](_ => None);
    reach[0] := true;
    for i := 0 to n
      invariant forall j :: 0 <= j <= n ==> TableAt(token, vocab, minPiece, i, j, reach[j], back[j])
    {
      Settled(token, vocab, minPiece, i, i, reach[i], back[i]);
      if !reach[i] {
        forall j | 0 <= j <= n
          ensures TableAt(token, vocab, minPiece, i + 1, j, reach[j], back[j])
        {
          TriedStart(token, vocab, minPiece, i, j, reach[j], back[j]);
        }
        continue;
      }
      FillFrom(token, vocab, minPiece, i, reach, back);
    }
    Settled(token, vocab, minPiece, n, n, reach[n], back[n]);
    if !reach[n] {
      UnreachedIsUnsegmented(token, vocab, minPiece);
      return None;
    }
    var pieces := CutBack(token, vocab, minPiece, reach, back);
    ReachIffSegmented(token, vocab, minPiece, pieces);
    CutOfAWord(token, vocab, minPiece, pieces);
    if |pieces| > 1 { r := Some(pieces); } else { r := None; }
  }

  /** Follows the back pointers from the end of the token. */
  method CutBack(token: string, vocab: set<string>, minPiece: int, reach: array<bool>, back: array<Option<nat>>)
    returns (pieces: seq<string>)
    requires minPiece >= 1 && reach.Length == back.Length == |token| + 1 && reach[|token|]
    requires forall j :: 0 <= j <= |token| ==> TableAt(token, vocab, minPiece, |token|, j, reach[j], back[j])
    ensures CutAtBacks(token, vocab, minPiece, pieces, 0)
  {
    var cursor := |token|;
    pieces := [];
    while cursor != 0
      invariant 0 <= cursor <= |token| && reach[cursor]
      invariant CutAtBacks(token, vocab, minPiece, pieces, cursor)
      decreases cursor
    {
      var start := back[cursor].value;
      Settled(token, vocab, minPiece, |token|, start, reach[start], back[start]);
      ghost var rest := pieces;
      pieces := [token[start..cursor]] + pieces;
      assert pieces[1..] == rest;
      cursor := start;
    }
  }
}
