/** The keys that pools, cached schemas and prepared contexts are stored under, and which
    of them an invalidation reaches. */
module ContextKeys {
  /** `dbSchema` is "" when no schema is selected. */
  datatype DbConfig = DbConfig(host: string, database: string, engine: string, dbSchema: string)

  function SchemaSuffix(c: DbConfig): string {
    if c.dbSchema != "" then "|" + c.dbSchema else ""
  }

  function DbKey(c: DbConfig): string {
    c.host + "|" + c.database + "|" + c.engine + SchemaSuffix(c)
  }

  function CtxKey(c: DbConfig, hash: string): string {
    DbKey(c) + "|" + hash
  }

  /** What `invalidate` looks for among the context keys. */
  predicate Matches(dbKey: string, key: string) {
    key == dbKey || dbKey + "|" <= key
  }

  // --- Keys as lists of fields ---

  function Fields(c: DbConfig): seq<string> {
    [c.host, c.database, c.engine] + if c.dbSchema != "" then [c.dbSchema] else []
  }

  predicate BarFree(s: string) {
    '|' !in s
  }

  predicate Plain(c: DbConfig) {
    BarFree(c.host) && BarFree(c.database) && BarFree(c.engine) && BarFree(c.dbSchema)
  }

  ghost predicate AllBarFree(fields: seq<string>) {
    forall f :: f in fields ==> BarFree(f)
  }

  function Join(fields: seq<string>): string
    requires fields != []
  {
    if |fields| == 1 then fields[0] else fields[0] + "|" + Join(fields[1..])
  }

  /** Puts a character in front of a list of fields. */
  function Glue(c: char, fields: seq<string>): (r: seq<string>)
    requires fields != []
    ensures r != []
  {
    if c == '|' then [""] + fields else [[c] + fields[0]] + fields[1..]
  }

  function Split(s: string): (fields: seq<string>)
    ensures fields != []
  {
    if s == "" then [""] else Glue(s[0], Split(s[1..]))
  }

  lemma GlueConcat(c: char, left: seq<string>, right: seq<string>)
    requires left != []
    ensures Glue(c, left + right) == Glue(c, left) + right
  {
    assert (left + right)[1..] == left[1..] + right;
  }

  lemma {:induction false} SplitConcat(a: string, b: string)
    ensures Split(a + "|" + b) == Split(a) + Split(b)
  {
    var s := a + "|" + b;
    if a == "" {
      assert s[1..] == b;
    } else {
      assert s[1..] == a[1..] + "|" + b && s[0] == a[0];
      SplitConcat(a[1..], b);
      GlueConcat(a[0], Split(a[1..]), Split(b));
    }
  }

  lemma {:induction false} SplitField(f: string)
    requires BarFree(f)
    ensures Split(f) == [f]
  {
    if f != "" {
      SplitField(f[1..]);
      assert [f[0]] + f[1..] == f;
    }
  }

  /** Splitting undoes joining. */
  lemma {:induction false} SplitJoin(fields: seq<string>)
    requires fields != [] && AllBarFree(fields)
    ensures Split(Join(fields)) == fields
  {
    SplitField(fields[0]);
    if |fields| > 1 {
      SplitJoin(fields[1..]);
      SplitConcat(fields[0], Join(fields[1..]));
    }
  }

  lemma {:induction false} JoinConcat(a: seq<string>, b: seq<string>)
    requires a != [] && b != []
    ensures Join(a + b) == Join(a) + "|" + Join(b)
  {
    if |a| == 1 {
      assert (a + b)[1..] == b;
    } else {
      JoinConcat(a[1..], b);
      assert (a + b)[1..] == a[1..] + b;
      var t := Join(a[1..]);
      assert Join(a) == a[0] + "|" + t;
      assert a[0] + "|" + (t + "|" + Join(b)) == (a[0] + "|" + t) + "|" + Join(b);
    }
  }

  /** One key extends another by whole fields exactly when its field list extends the
      other's. */
  lemma ExtendsIffMoreFields(a: seq<string>, b: seq<string>)
    requires a != [] && b != [] && AllBarFree(a) && AllBarFree(b)
    ensures Join(a) + "|" <= Join(b) <==> a < b
    ensures Join(a) == Join(b) <==> a == b
  {
    SplitJoin(a);
    SplitJoin(b);
    var prefix := Join(a) + "|";
    if prefix <= Join(b) {
      var rest := Join(b)[|prefix|..];
      assert Join(b) == Join(a) + "|" + rest;
      SplitConcat(Join(a), rest);
    }
    if a < b {
      var rest := b[|a|..];
      assert b == a + rest;
      JoinConcat(a, rest);
    }
  }

  lemma DbKeyJoins(c: DbConfig)
    ensures DbKey(c) == Join(Fields(c))
  {
    var abc := [c.host, c.database, c.engine];
    assert abc[1..] == [c.database, c.engine] && abc[2..] == [c.engine];
    assert Join(abc[1..]) == c.database + "|" + c.engine;
    assert Join(abc) == c.host + "|" + (c.database + "|" + c.engine);
    assert Join(abc) == c.host + "|" + c.database + "|" + c.engine;
    if c.dbSchema == "" {
      assert Fields(c) == abc;
    } else {
      JoinConcat(abc, [c.dbSchema]);
      assert Join(abc) + "|" + c.dbSchema == Join(abc) + ("|" + c.dbSchema);
    }
  }

  lemma CtxKeyJoins(c: DbConfig, hash: string)
    ensures CtxKey(c, hash) == Join(Fields(c) + [hash])
  {
    DbKeyJoins(c);
    JoinConcat(Fields(c), [hash]);
  }

  // --- What the keys tell apart ---

  lemma FieldsIdentify(c: DbConfig, d: DbConfig, h: string, g: string)
    ensures Fields(c) == Fields(d) ==> c == d
    ensures Fields(c) + [h] == Fields(d) + [g] ==> c == d && h == g
  {
    var a, b := Fields(c) + [h], Fields(d) + [g];
    assert Fields(c)[..3] == [c.host, c.database, c.engine] && Fields(d)[..3] == [d.host, d.database, d.engine];
    assert a[..3] == Fields(c)[..3] && b[..3] == Fields(d)[..3];
    assert a[|a| - 1] == h && b[|b| - 1] == g;
    assert c.dbSchema != "" ==> a[3] == c.dbSchema;
  }

  /** Equal keys mean the same database, and for contexts also the same version of its
      schema. */
  lemma KeysIdentify(c: DbConfig, d: DbConfig, h: string, g: string)
    requires Plain(c) && Plain(d) && BarFree(h) && BarFree(g)
    ensures DbKey(c) == DbKey(d) <==> c == d
    ensures CtxKey(c, h) == CtxKey(d, g) <==> c == d && h == g
  {
    DbKeyJoins(c);
    DbKeyJoins(d);
    CtxKeyJoins(c, h);
    CtxKeyJoins(d, g);
    ExtendsIffMoreFields(Fields(c), Fields(d));
    ExtendsIffMoreFields(Fields(c) + [h], Fields(d) + [g]);
    FieldsIdentify(c, d, h, g);
  }

  /** The contexts an invalidation for `c` is to drop. With no schema selected that is every
      context of the database, those of its selected schemas included. */
  predicate Reaches(c: DbConfig, d: DbConfig, hash: string) {
    && c.host == d.host && c.database == d.database && c.engine == d.engine
    && (c.dbSchema == "" || c.dbSchema == d.dbSchema || (d.dbSchema == "" && c.dbSchema == hash))
  }

  lemma FieldsReach(c: DbConfig, d: DbConfig, hash: string)
    ensures var a, b := Fields(c), Fields(d) + [hash];
            a < b || a == b <==> Reaches(c, d, hash)
  {
    var a, b := Fields(c), Fields(d) + [hash];
    assert b[..3] == [d.host, d.database, d.engine];
    assert b[3] == if d.dbSchema != "" then d.dbSchema else hash;
    assert a[..3] == [c.host, c.database, c.engine];
    if c.dbSchema == "" {
      assert a == a[..3];
    } else {
      assert a == a[..3] + [c.dbSchema];
      assert b[..4] == b[..3] + [b[3]];
    }
    assert a < b || a == b <==> |a| <= |b| && a == b[..|a|];
  }

  lemma MatchesIffReaches(c: DbConfig, d: DbConfig, hash: string)
    requires Plain(c) && Plain(d) && BarFree(hash)
    ensures Matches(DbKey(c), CtxKey(d, hash)) <==> Reaches(c, d, hash)
  {
    DbKeyJoins(c);
    CtxKeyJoins(d, hash);
    ExtendsIffMoreFields(Fields(c), Fields(d) + [hash]);
    FieldsReach(c, d, hash);
  }

  /** With a `|` inside a field two databases can have one key. */
  lemma BarsConfuse()
    ensures DbKey(DbConfig("h", "d|e", "f", "")) == DbKey(DbConfig("h", "d", "e", "f"))
  {
  }
}
