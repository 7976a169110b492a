/** Repairing near-miss column names in a finished plan, or refusing it. */
module ColumnRepair {
  import opened Names
  import opened JoinPlan

  predicate IsSeparator(c: char) {
    c == '_' || c == ' ' || c == '-'
  }

  function SquashedChar(c: char): string {
    if IsSeparator(c) then "" else [c]
  }

  function Squash(s: string): string {
    if s == "" then "" else SquashedChar(s[0]) + Squash(s[1..])
  }

  function SquashLower(c: string): string {
    Squash(Lower(c))
  }

  /** The last column with a given key: a dictionary keeps the last one written. */
  function LastWith(columns: seq<string>, key: string -> string, k: string): (r: Option<string>)
    ensures r.Some? ==> r.value in columns && key(r.value) == k
    ensures r.None? <==> forall c :: c in columns ==> key(c) != k
  {
    if columns == [] then None
    else
      var c := columns[|columns| - 1];
      if key(c) == k then Some(c) else LastWith(columns[..|columns| - 1], key, k)
  }

  lemma {:induction false} LastWithIs(columns: seq<string>, key: string -> string, k: string, i: nat)
    requires i < |columns| && key(columns[i]) == k && forall j :: i < j < |columns| ==> key(columns[j]) != k
    ensures LastWith(columns, key, k) == Some(columns[i])
  {
    if i < |columns| - 1 { LastWithIs(columns[..|columns| - 1], key, k, i); }
  }

  predicate EndsWith(s: string, t: string) {
    |t| <= |s| && s[|s| - |t|..] == t
  }

  /** On a word boundary: "price" is a part of "unit_price". */
  predicate IsPart(target: string, lower: string) {
    EndsWith(lower, "_" + target) || target + "_" <= lower
  }

  /** A name is part of a column's exactly when the column ends with an underscore and the name, or
      begins with the name and an underscore. */
  lemma PartIff(target: string, lower: string)
    ensures IsPart(target, lower) <==> exists rest :: lower == rest + "_" + target || lower == target + "_" + rest
  {
    if EndsWith(lower, "_" + target) {
      var rest := lower[..|lower| - |target| - 1];
      assert lower == rest + ("_" + target);
      assert lower == rest + "_" + target;
    }
    if target + "_" <= lower {
      assert lower == target + "_" + lower[|target| + 1..];
    }
    if rest :| lower == rest + "_" + target || lower == target + "_" + rest {
      if lower == rest + "_" + target {
        assert lower[|lower| - |"_" + target|..] == "_" + target;
      }
    }
  }

  lemma SeparatorsAre(c: char)
    ensures Squash([c]) == if c in "_ -" then "" else [c]
  {
    assert [c][1..] == "" && Squash("") == "";
    assert [c] + "" == [c];
  }

  function PartMatches(columns: seq<string>, target: string): (r: seq<string>)
    ensures forall c :: c in r <==> c in columns && IsPart(target, Lower(c))
  {
    if columns == [] then []
    else
      var rest, c := PartMatches(columns[..|columns| - 1], target), columns[|columns| - 1];
      if IsPart(target, Lower(c)) then rest + [c] else rest
  }

  /** The column that `name` most likely means. */
  function RepairColumn(name: string, columns: seq<string>): Option<string> {
    var target := Lower(name);
    if name == "" then None
    else if LastWith(columns, Lower, target).Some? then LastWith(columns, Lower, target)
    else if LastWith(columns, SquashLower, Squash(target)).Some? then LastWith(columns, SquashLower, Squash(target))
    else
      var matches := PartMatches(KeepFirst(columns, Lower), target);
      if |matches| == 1 then LastWith(columns, Lower, Lower(matches[0])) else None
  }

  // --- What a repair may be ---

  /** How near a column is to a name, 0 the nearest and 3 not at all. */
  function Distance(name: string, c: string): nat {
    if Lower(c) == Lower(name) then 0
    else if SquashLower(c) == SquashLower(name) then 1
    else if IsPart(Lower(name), Lower(c)) then 2
    else 3
  }

  /** Two columns, not counting case, are equally near and none is nearer. */
  ghost predicate Tie(name: string, columns: seq<string>, distance: nat) {
    && (forall c :: c in columns ==> Distance(name, c) >= distance)
    && exists a, b :: a in columns && b in columns && Lower(a) != Lower(b) &&
                      Distance(name, a) == distance && Distance(name, b) == distance
  }

  /** Of columns that differ in more than case the matches are distinct, and every match is
      there up to case. */
  lemma {:induction false} PartsAreDistinct(columns: seq<string>, target: string)
    requires DistinctKeys(columns, Lower)
    ensures DistinctKeys(PartMatches(columns, target), Lower)
  {
    if columns != [] {
      var n := |columns| - 1;
      assert columns[..n] + [columns[n]] == columns;
      assert DistinctKeys(columns[..n], Lower) by {
        assert forall i :: 0 <= i < n ==> columns[..n][i] == columns[i];
      }
      PartsAreDistinct(columns[..n], target);
      var rest := PartMatches(columns[..n], target);
      forall i | 0 <= i < |rest|
        ensures Lower(rest[i]) != Lower(columns[n])
      {
        assert rest[i] in columns[..n];
      }
    }
  }

  lemma TwoKeys<T(!new)>(xs: seq<T>, key: T -> string)
    requires DistinctKeys(xs, key) && |xs| > 1
    ensures exists x, y :: x in xs && y in xs && key(x) != key(y)
  {
    assert xs[0] in xs && xs[1] in xs;
  }

  lemma OneKey<T(!new)>(xs: seq<T>, key: T -> string, k: string)
    requires DistinctKeys(xs, key) && forall x :: x in xs ==> key(x) == k
    ensures |xs| <= 1
  {
    if |xs| > 1 { TwoKeys(xs, key); }
  }

  ghost predicate OnePart(name: string, columns: seq<string>) {
    exists c :: c in columns && OnlyPart(name, columns, c)
  }

  ghost predicate OnlyPart(name: string, columns: seq<string>, c: string) {
    && IsPart(Lower(name), Lower(c))
    && forall d :: d in columns && IsPart(Lower(name), Lower(d)) ==> Lower(d) == Lower(c)
  }

  /** Every column that matches is among the matches, up to case. */
  lemma MatchKept(columns: seq<string>, target: string, d: string) returns (m: string)
    requires d in columns && IsPart(target, Lower(d))
    ensures m in PartMatches(KeepFirst(columns, Lower), target) && Lower(m) == Lower(d)
  {
    var kept := KeepFirst(columns, Lower);
    KeepFirstKeys(columns, Lower);
    assert Lower(d) in KeySet(columns, Lower);
    assert Lower(d) in KeySet(kept, Lower);
    m :| m in kept && Lower(m) == Lower(d);
  }

  lemma OneMatchSame(columns: seq<string>, target: string, c: string, d: string)
    requires PartMatches(KeepFirst(columns, Lower), target) == [c]
    requires d in columns && IsPart(target, Lower(d))
    ensures Lower(d) == Lower(c)
  {
    var m := MatchKept(columns, target, d);
    assert m == c;
  }

  lemma OneMatchIsOnly(name: string, columns: seq<string>, c: string)
    requires PartMatches(KeepFirst(columns, Lower), Lower(name)) == [c]
    ensures c in columns && OnlyPart(name, columns, c)
  {
    assert c in PartMatches(KeepFirst(columns, Lower), Lower(name));
    KeepFirstKeys(columns, Lower);
    forall d | d in columns && IsPart(Lower(name), Lower(d))
      ensures Lower(d) == Lower(c)
    {
      OneMatchSame(columns, Lower(name), c, d);
    }
  }

  lemma OnlyIsOneMatch(name: string, columns: seq<string>, c: string)
    requires c in columns && OnlyPart(name, columns, c)
    ensures |PartMatches(KeepFirst(columns, Lower), Lower(name))| == 1
  {
    var kept := KeepFirst(columns, Lower);
    var matches := PartMatches(kept, Lower(name));
    KeepFirstKeys(columns, Lower);
    PartsAreDistinct(kept, Lower(name));
    var m := MatchKept(columns, Lower(name), c);
    forall d | d in matches
      ensures Lower(d) == Lower(c)
    {
      assert d in kept && d in columns;
    }
    OneKey(matches, Lower, Lower(c));
  }

  /** There is one match among the columns told apart by case exactly when the columns that
      match differ in case only. */
  lemma OneMatchIff(name: string, columns: seq<string>)
    ensures var matches := PartMatches(KeepFirst(columns, Lower), Lower(name));
            && (|matches| == 1 <==> OnePart(name, columns))
            && (|matches| == 1 ==> matches[0] in columns && OnlyPart(name, columns, matches[0]))
  {
    var matches := PartMatches(KeepFirst(columns, Lower), Lower(name));
    if |matches| == 1 {
      assert matches == [matches[0]];
      OneMatchIsOnly(name, columns, matches[0]);
    }
    if OnePart(name, columns) {
      var c :| c in columns && OnlyPart(name, columns, c);
      OnlyIsOneMatch(name, columns, c);
    }
  }

  /** A repair is one of the nearest columns, and there is none exactly when no column is
      near or the only ones near are several that each contain the name. */
  lemma RepairIsNearest(name: string, columns: seq<string>)
    ensures var r := RepairColumn(name, columns);
            && (r.Some? ==> r.value in columns && Distance(name, r.value) < 3 &&
                            forall c :: c in columns ==> Distance(name, c) >= Distance(name, r.value))
            && (r.None? <==>
                name == "" || (!OnePart(name, columns) && forall c :: c in columns ==> Distance(name, c) >= 2))
  {
    OneMatchIff(name, columns);
    var matches := PartMatches(KeepFirst(columns, Lower), Lower(name));
    assert |matches| == 1 ==> LastWith(columns, Lower, Lower(matches[0])).Some?;
  }

  /** A repair is the only nearest column, up to case, unless columns that differ in more
      than their separators' absence tie with it. */
  lemma RepairIsUniqueIff(name: string, columns: seq<string>)
    requires RepairColumn(name, columns).Some?
    ensures var c := RepairColumn(name, columns).value;
            (forall d :: d in columns && Distance(name, d) == Distance(name, c) ==> Lower(d) == Lower(c)) <==>
            !Tie(name, columns, 1)
  {
    RepairIsNearest(name, columns);
    OneMatchIff(name, columns);
  }

  /** Of columns that differ in case only the last is the repair, and of columns that differ from
      the name in separators only, when none differs in case alone, the last again. */
  lemma RepairIsLast(name: string, columns: seq<string>, i: nat)
    requires name != "" && i < |columns|
    ensures Distance(name, columns[i]) == 0 && (forall j :: i < j < |columns| ==> Distance(name, columns[j]) > 0) ==>
              RepairColumn(name, columns) == Some(columns[i])
    ensures (Distance(name, columns[i]) == 1 && (forall c :: c in columns ==> Distance(name, c) > 0) &&
             (forall j :: i < j < |columns| ==> Distance(name, columns[j]) > 1)) ==>
              RepairColumn(name, columns) == Some(columns[i])
  {
    if Distance(name, columns[i]) == 0 && forall j :: i < j < |columns| ==> Distance(name, columns[j]) > 0 {
      LastWithIs(columns, Lower, Lower(name), i);
    }
    if Distance(name, columns[i]) == 1 && (forall c :: c in columns ==> Distance(name, c) > 0) &&
       forall j :: i < j < |columns| ==> Distance(name, columns[j]) > 1 {
      LastWithIs(columns, SquashLower, Squash(Lower(name)), i);
    }
  }

  /** The repair is said to be made only when it is unambiguous, but of two columns that
      differ from the name in separators only, the last is taken. */
  lemma LastOfTie(name: string, a: string, b: string)
    requires name != "" && Lower(a) != Lower(name) && Lower(b) != Lower(name)
    requires SquashLower(a) == SquashLower(name) && SquashLower(b) == SquashLower(name)
    ensures RepairColumn(name, [a, b]) == Some(b)
  {
  }

  lemma Associates(a: string, b: string, c: string)
    ensures a + (b + c) == (a + b) + c
  {
  }

  lemma {:induction false} SquashConcat(a: string, b: string)
    ensures Squash(a + b) == Squash(a) + Squash(b)
  {
    if a == "" {
      assert a + b == b;
    } else {
      SquashConcat(a[1..], b);
      assert (a + b)[1..] == a[1..] + b && (a + b)[0] == a[0];
      Associates(SquashedChar(a[0]), Squash(a[1..]), Squash(b));
    }
  }

  ghost predicate NoSeparators(s: string) {
    forall c :: c in s ==> !IsSeparator(c)
  }

  lemma {:induction false} SquashKeeps(s: string)
    requires NoSeparators(s)
    ensures Squash(s) == s
  {
    if s != "" {
      SquashKeeps(s[1..]);
      assert s == [s[0]] + s[1..];
    }
  }

  lemma SquashOne(c: char)
    requires IsSeparator(c)
    ensures Squash([c]) == ""
  {
    assert [c][1..] == "";
  }

  /** A separator between two words is squashed away. */
  lemma SquashBetween(a: string, c: char, b: string)
    requires IsSeparator(c) && NoSeparators(a) && NoSeparators(b)
    ensures Squash(a + [c] + b) == a + b
  {
    SquashConcat(a + [c], b);
    SquashConcat(a, [c]);
    SquashOne(c);
    SquashKeeps(a);
    SquashKeeps(b);
    assert a + "" == a;
  }

  lemma SquashAB()
    ensures Squash("a b") == Squash("a_b") == Squash("ab") == "ab"
  {
    LiteralAB();
    SquashBetween("a", ' ', "b");
    SquashBetween("a", '_', "b");
    SquashKeeps("ab");
  }

  lemma LiteralAB()
    ensures "a" + [' '] + "b" == "a b" && "a" + ['_'] + "b" == "a_b" && "a" + "b" == "ab"
    ensures NoSeparators("a") && NoSeparators("b") && NoSeparators("ab")
  {
  }

  lemma SeparatorsTie()
    ensures RepairColumn("a b", ["a_b", "ab"]) == Some("ab") && RepairColumn("a b", ["ab", "a_b"]) == Some("a_b")
  {
    LowerAB();
    SquashAB();
    LastOfTie("a b", "a_b", "ab");
    LastOfTie("a b", "ab", "a_b");
  }

  lemma LowerAB()
    ensures Lower("a b") == "a b" && Lower("a_b") == "a_b" && Lower("ab") == "ab"
  {
  }

  // --- References of a plan ---

  datatype Reference = Reference(table: string, column: string)

  type Schema = seq<(string, seq<string>)>

  function Entry(schema: Schema, table: string): (r: Option<(string, seq<string>)>)
    ensures r.Some? ==> r.value in schema && Lower(r.value.0) == Lower(table)
  {
    if schema == [] then None
    else
      var last := schema[|schema| - 1];
      if Lower(last.0) == Lower(table) then Some(last) else Entry(schema[..|schema| - 1], table)
  }

  ghost predicate LastNamed(schema: Schema, table: string, i: nat) {
    && i < |schema| && Lower(schema[i].0) == Lower(table)
    && forall j :: i < j < |schema| ==> Lower(schema[j].0) != Lower(table)
  }

  /** A table is looked up by its name without case: of tables that differ in case only the last
      is found, and none only when there is no such table. */
  lemma {:induction false} EntryIs(schema: Schema, table: string, i: nat)
    ensures LastNamed(schema, table, i) ==> Entry(schema, table) == Some(schema[i])
    ensures Entry(schema, table).None? <==> forall e :: e in schema ==> Lower(e.0) != Lower(table)
  {
    if schema != [] {
      var n := |schema| - 1;
      assert schema == schema[..n] + [schema[n]];
      assert i < n && LastNamed(schema, table, i) ==> LastNamed(schema[..n], table, i);
      EntryIs(schema[..n], table, i);
    }
  }

  // How a column's text is read: as an aggregate call, as a qualified name, or as it stands.

  datatype Kind = Blank | Word | WordOrDot

  predicate Is(kind: Kind, c: char) {
    match kind
    case Blank => IsBlank(c)
    case Word => IsNameStart(c) || '0' <= c <= '9'
    case WordOrDot => IsNameStart(c) || '0' <= c <= '9' || c == '.'
  }

  /** The characters of a kind that a string begins with. */
  function TakeWhile(s: string, kind: Kind): string {
    if s == "" || !Is(kind, s[0]) then "" else [s[0]] + TakeWhile(s[1..], kind)
  }

  function DropWhile(s: string, kind: Kind): string {
    if s == "" || !Is(kind, s[0]) then s else DropWhile(s[1..], kind)
  }

  datatype Call = Call(fn: string, inner: string)

  /** What follows the opening parenthesis. */
  function ParseArgument(s: string): Option<string> {
    var arg := DropWhile(s, Blank);
    var inner := TakeWhile(arg, WordOrDot);
    var close := DropWhile(DropWhile(arg, WordOrDot), Blank);
    if inner == "" || close == "" || close[0] != ')' || DropWhile(close[1..], Blank) != "" then None else Some(inner)
  }

  /** "SUM(amount)" or "SUM(products.price)", with blanks wherever they may stand. */
  function ParseCall(column: string): Option<Call> {
    var head := DropWhile(column, Blank);
    var fn := TakeWhile(head, Word);
    var open := DropWhile(DropWhile(head, Word), Blank);
    if fn == "" || open == "" || open[0] != '(' then None
    else
      match ParseArgument(open[1..])
      case None => None
      case Some(inner) => Some(Call(fn, inner))
  }

  predicate Qualified(column: string) {
    DotAt(column) < |column| && IsIdentifier(column[..DotAt(column)])
  }

  /** A qualifying name wins over the table given. */
  function Unqualified(r: Reference): Reference {
    if Qualified(r.column) then Reference(r.column[..DotAt(r.column)], r.column[DotAt(r.column) + 1..]) else r
  }

  /** The table and column meant. */
  function Meant(r: Reference): Reference {
    match ParseCall(r.column)
    case Some(call) => Unqualified(Reference(r.table, call.inner))
    case None => Unqualified(r)
  }

  predicate HasColumn(columns: seq<string>, name: string) {
    exists c :: c in columns && Lower(c) == Lower(name)
  }

  /** There is nothing to repair: no column is named, the table is not known, or it has the
      column. */
  predicate Settled(schema: Schema, r: Reference) {
    var m := Meant(r);
    || r.column == "" || r.column == "*" || m.table == "" || Entry(schema, m.table).None?
    || HasColumn(Entry(schema, m.table).value.1, m.column)
  }

  /** The text that names column `c` of `table` in place of the one that was read. */
  function Rewritten(column: string, table: string, c: string): string {
    match ParseCall(column)
    case Some(call) => call.fn + "(" + table + "." + c + ")"
    case None => if Qualified(column) then table + "." + c else c
  }

  /** The reference after repair, or none when the plan is to be refused. */
  function Repaired(schema: Schema, r: Reference): (s: Option<Reference>)
    ensures s.Some? ==> s.value.table == r.table
  {
    var m := Meant(r);
    if Settled(schema, r) then Some(r)
    else
      var (table, columns) := Entry(schema, m.table).value;
      match RepairColumn(m.column, columns)
      case None => None
      case Some(c) => Some(r.(column := Rewritten(r.column, table, c)))
  }

  function RepairedOrKept(schema: Schema, r: Reference): (s: Reference)
    ensures s.table == r.table
  {
    if Repaired(schema, r).Some? then Repaired(schema, r).value else r
  }

  // --- What a repaired reference names ---

  lemma {:induction false} DotAfter(s: string, t: string)
    requires '.' !in s
    ensures DotAt(s + "." + t) == |s|
  {
    var i := DotAt(s + "." + t);
    assert (s + "." + t)[|s|] == '.';
    assert forall k :: 0 <= k < |s| ==> (s + "." + t)[k] == s[k];
  }

  /** A name that differs in case only from an identifier is one too. */
  lemma SameButCase(s: string, t: string)
    requires IsIdentifier(s) && Lower(s) == Lower(t)
    ensures IsIdentifier(t) && '.' !in t
  {
    assert |t| == |Lower(t)| == |s|;
    forall i | 0 <= i < |t|
      ensures i == 0 ==> IsNameStart(t[i])
      ensures IsNameStart(t[i]) || '0' <= t[i] <= '9'
    {
      assert LowerChar(t[i]) == Lower(t)[i] == Lower(s)[i] == LowerChar(s[i]);
    }
  }

  lemma {:induction false} EntryByCase(schema: Schema, a: string, b: string)
    requires Lower(a) == Lower(b)
    ensures Entry(schema, a) == Entry(schema, b)
  {
    if schema != [] { EntryByCase(schema[..|schema| - 1], a, b); }
  }

  predicate AllAre(s: string, kind: Kind) {
    forall c :: c in s ==> Is(kind, c)
  }

  lemma {:induction false} TakeAndDrop(s: string, kind: Kind)
    ensures s == TakeWhile(s, kind) + DropWhile(s, kind) && AllAre(TakeWhile(s, kind), kind)
  {
    if s != "" && Is(kind, s[0]) {
      TakeAndDrop(s[1..], kind);
      assert s == [s[0]] + s[1..];
    }
  }

  /** A string that begins with characters of a kind and goes on with another. */
  lemma {:induction false} TakeIs(a: string, b: string, kind: Kind)
    requires AllAre(a, kind) && (b == "" || !Is(kind, b[0]))
    ensures TakeWhile(a + b, kind) == a && DropWhile(a + b, kind) == b
  {
    if a == "" {
      assert a + b == b;
    } else {
      assert a == [a[0]] + a[1..] && (a + b)[1..] == a[1..] + b;
      TakeIs(a[1..], b, kind);
    }
  }

  lemma NoBlanks(s: string)
    requires s == "" || !IsBlank(s[0])
    ensures DropWhile(s, Blank) == s
  {
  }

  lemma ArgumentIs(inner: string, close: string)
    requires inner != "" && AllAre(inner, WordOrDot) && |close| == 1 && close[0] == ')'
    ensures ParseArgument(inner + close) == Some(inner)
  {
    assert inner[0] in inner && (inner + close)[0] == inner[0];
    NoBlanks(inner + close);
    TakeIs(inner, close, WordOrDot);
    NoBlanks(close);
    NoBlanks(close[1..]);
  }

  lemma CallIs(fn: string, inner: string, open: string, close: string)
    requires fn != "" && AllAre(fn, Word) && inner != "" && AllAre(inner, WordOrDot)
    requires |open| == 1 && open[0] == '(' && |close| == 1 && close[0] == ')'
    ensures ParseCall(fn + (open + (inner + close))) == Some(Call(fn, inner))
  {
    var rest := open + (inner + close);
    assert fn[0] in fn && (fn + rest)[0] == fn[0];
    NoBlanks(fn + rest);
    TakeIs(fn, rest, Word);
    NoBlanks(rest);
    assert rest[1..] == inner + close;
    ArgumentIs(inner, close);
  }

  lemma CallIsRead(fn: string, inner: string)
    requires fn != "" && AllAre(fn, Word) && inner != "" && AllAre(inner, WordOrDot)
    ensures ParseCall(fn + "(" + inner + ")") == Some(Call(fn, inner))
  {
    assert fn + "(" + inner + ")" == fn + ("(" + (inner + ")"));
    CallIs(fn, inner, "(", ")");
  }

  /** A word followed by a dot is no call. */
  lemma QualifiedIsNoCall(table: string, c: string)
    requires IsIdentifier(table)
    ensures ParseCall(table + "." + c).None?
  {
    assert table + "." + c == table + ("." + c);
    WordThenDot(table, "." + c);
  }

  lemma WordThenDot(word: string, rest: string)
    requires IsIdentifier(word) && rest != "" && rest[0] == '.'
    ensures ParseCall(word + rest).None?
  {
    assert word[0] in word && (word + rest)[0] == word[0];
    NoBlanks(word + rest);
    TakeIs(word, rest, Word);
    NoBlanks(rest);
  }

  lemma UnqualifiedIs(given: string, table: string, c: string)
    requires IsIdentifier(table) && '.' !in table
    ensures Qualified(table + "." + c) && Unqualified(Reference(given, table + "." + c)) == Reference(table, c)
  {
    DotAfter(table, c);
    var s := table + "." + c;
    assert s[..|table|] == table && s[|table| + 1..] == c;
  }

  /** The rewritten text is read back as the column it was written for: a call's table and
      column are words, and a bare column is not itself read as a call or a qualified name. */
  predicate ReadsBack(column: string, table: string, c: string) {
    match ParseCall(column)
    case Some(_) => IsIdentifier(table) && AllAre(c, WordOrDot)
    case None => Qualified(column) || (ParseCall(c).None? && !Qualified(c))
  }

  /** Text without a parenthesis and a dot is read as it stands. */
  lemma PlainText(s: string)
    requires '(' !in s && '.' !in s
    ensures ParseCall(s).None? && !Qualified(s)
  {
    var head := DropWhile(s, Blank);
    var tail := DropWhile(head, Word);
    TakeAndDrop(s, Blank);
    TakeAndDrop(head, Word);
    TakeAndDrop(tail, Blank);
    var open := DropWhile(tail, Blank);
    assert open != "" ==> open[0] in open && open[0] in tail && open[0] in head && open[0] in s;
  }

  lemma CallFunctionIsWord(column: string)
    requires ParseCall(column).Some?
    ensures var fn := ParseCall(column).value.fn; fn != "" && AllAre(fn, Word)
  {
    TakeAndDrop(DropWhile(column, Blank), Word);
  }

  lemma CallIsReadBack(given: string, fn: string, table: string, c: string)
    requires fn != "" && AllAre(fn, Word) && IsIdentifier(table) && AllAre(c, WordOrDot)
    ensures Meant(Reference(given, fn + "(" + table + "." + c + ")")) == Reference(table, c)
  {
    var inner := table + "." + c;
    SameButCase(table, table);
    assert fn + "(" + table + "." + c + ")" == fn + "(" + inner + ")";
    CallIsRead(fn, inner);
    UnqualifiedIs(given, table, c);
  }

  lemma RewrittenIsRead(r: Reference, table: string, c: string)
    requires ReadsBack(r.column, table, c) && Lower(table) == Lower(Meant(r).table)
    ensures var m := Meant(Reference(r.table, Rewritten(r.column, table, c)));
            Lower(m.table) == Lower(table) && m.column == c
  {
    if ParseCall(r.column).Some? {
      CallFunctionIsWord(r.column);
      CallIsReadBack(r.table, ParseCall(r.column).value.fn, table, c);
    } else if Qualified(r.column) {
      SameButCase(Meant(r).table, table);
      QualifiedIsNoCall(table, c);
      UnqualifiedIs(r.table, table, c);
    }
  }

  // --- Which references come to mean one column ---

  /** Names of tables and columns are told apart without case. */
  predicate SameColumn(a: Reference, b: Reference) {
    var m, n := Meant(a), Meant(b);
    Lower(m.table) == Lower(n.table) && Lower(m.column) == Lower(n.column)
  }

  /** No column's name can be read as a call or a qualified name. */
  ghost predicate PlainColumns(schema: Schema) {
    forall e, c :: e in schema && c in e.1 ==> '(' !in c && '.' !in c
  }

  /** The column a reference comes to: its own when nothing is repaired, else the nearest. */
  function ComesTo(schema: Schema, r: Reference): string {
    var m := Meant(r);
    if Settled(schema, r) then m.column
    else
      match RepairColumn(m.column, Entry(schema, m.table).value.1)
      case None => m.column
      case Some(c) => c
  }

  /** It is no column of the table it means, and the one it most likely means is `c`. */
  predicate MendedTo(schema: Schema, r: Reference, c: string) {
    && !Settled(schema, r)
    && var d := RepairColumn(Meant(r).column, Entry(schema, Meant(r).table).value.1);
       d.Some? && Lower(d.value) == Lower(c)
  }

  lemma PlainColumn(schema: Schema, table: string, c: string)
    requires PlainColumns(schema) && Entry(schema, table).Some? && c in Entry(schema, table).value.1
    ensures ParseCall(c).None? && !Qualified(c)
  {
    PlainText(c);
  }

  /** What the repaired text is read as. */
  lemma RepairedMeans(schema: Schema, r: Reference)
    requires PlainColumns(schema) && ParseCall(r.column).None?
    ensures var m := Meant(RepairedOrKept(schema, r));
            Lower(m.table) == Lower(Meant(r).table) && m.column == ComesTo(schema, r)
  {
    if Repaired(schema, r).Some? && !Settled(schema, r) {
      var (table, columns) := Entry(schema, Meant(r).table).value;
      var c := RepairColumn(Meant(r).column, columns).value;
      RepairIsNearest(Meant(r).column, columns);
      PlainColumn(schema, Meant(r).table, c);
      RewrittenIsRead(r, table, c);
    }
  }

  /** Repair makes two references mean one column exactly when they mean one table and come
      to one column of it. */
  lemma MeetIff(schema: Schema, a: Reference, b: Reference)
    requires PlainColumns(schema) && ParseCall(a.column).None? && ParseCall(b.column).None?
    ensures SameColumn(RepairedOrKept(schema, a), RepairedOrKept(schema, b)) <==>
            Lower(Meant(a).table) == Lower(Meant(b).table) && Lower(ComesTo(schema, a)) == Lower(ComesTo(schema, b))
  {
    RepairedMeans(schema, a);
    RepairedMeans(schema, b);
  }

  /** Repair makes a reference mean a given column of the schema exactly when it meant that
      column or misses it by so little that it is mended to it. */
  lemma BecomesIff(schema: Schema, r: Reference, k: Reference)
    requires PlainColumns(schema) && ParseCall(r.column).None?
    requires Entry(schema, k.table).Some? && k.column in Entry(schema, k.table).value.1
    ensures SameColumn(RepairedOrKept(schema, r), RepairedOrKept(schema, k)) <==>
            SameColumn(r, k) || (Lower(Meant(r).table) == Lower(k.table) && MendedTo(schema, r, k.column))
  {
    PlainColumn(schema, k.table, k.column);
    MeetIff(schema, r, k);
    if Lower(Meant(r).table) == Lower(k.table) { EntryByCase(schema, Meant(r).table, k.table); }
  }

  /** What may stand for a reference after repair: itself when it needs none, or a near column
      of the table meant, written as the reference was. */
  ghost predicate NamesColumn(schema: Schema, r: Reference, s: Reference) {
    if Settled(schema, r) then s == r
    else
      var (table, columns) := Entry(schema, Meant(r).table).value;
      exists c :: c in columns && Distance(Meant(r).column, c) < 3 &&
                  s == Reference(r.table, Rewritten(r.column, table, c))
  }

  lemma RepairNames(schema: Schema, r: Reference)
    requires Repaired(schema, r).Some?
    ensures NamesColumn(schema, r, Repaired(schema, r).value)
  {
    if !Settled(schema, r) { RepairSettles(schema, r); }
  }

  /** A repaired reference names, as it was written, the nearest column of the table meant;
      when that text is read back as written, there is nothing left to repair. */
  lemma RepairSettles(schema: Schema, r: Reference)
    requires Repaired(schema, r).Some? && !Settled(schema, r)
    ensures var (table, columns) := Entry(schema, Meant(r).table).value;
            var s := Repaired(schema, r).value;
            && RepairColumn(Meant(r).column, columns).Some?
            && var c := RepairColumn(Meant(r).column, columns).value;
               && c in columns && Distance(Meant(r).column, c) < 3
               && s == Reference(r.table, Rewritten(r.column, table, c))
               && (ReadsBack(r.column, table, c) ==> Settled(schema, s) && Repaired(schema, s) == Some(s))
  {
    var m := Meant(r);
    var (table, columns) := Entry(schema, m.table).value;
    var c := RepairColumn(m.column, columns).value;
    RepairIsNearest(m.column, columns);
    if ReadsBack(r.column, table, c) {
      RewrittenIsRead(r, table, c);
      EntryByCase(schema, Meant(Reference(r.table, Rewritten(r.column, table, c))).table, m.table);
    }
  }
}
