/** One upgrade script per database engine from one list of statements, all or nothing. */
module ScriptGeneration {
  import opened Text
  import opened Paths

  /** Schema statements are generated by each engine; raw SQL is passed through; anything else is refused. */
  datatype Statement = Schema(id: nat) | Raw(id: nat) | Unknown(id: nat)

  /** An engine's generator, with the fragments it yields for a statement. */
  datatype Engine = Engine(name: string, separator: string, generate: Statement -> seq<string>)

  /** What is done to raw SQL: it is trimmed, and refused if it then ends with its terminator. */
  function TrimFragment(fragment: string): string {
    Trim(IsWhiteSpace, fragment)
  }

  predicate IsTerminated(fragment: string) {
    EndsWith(TrimFragment(fragment), ";")
  }

  // ---------- the reference: each engine on its own ----------

  predicate IsRefused(st: Statement, fragment: string) {
    st.Raw? && IsTerminated(fragment)
  }

  predicate Accepts(e: Engine, st: Statement) {
    !st.Unknown? && forall j :: 0 <= j < |e.generate(st)| ==> !IsRefused(st, e.generate(st)[j])
  }

  /** An empty fragment of raw SQL does not count as SQL. */
  predicate Counts(st: Statement, fragment: string) {
    st.Raw? ==> fragment != ""
  }

  predicate CountsIn(st: Statement, fragments: seq<string>, n: nat)
    requires n <= |fragments|
  {
    exists j :: 0 <= j < n && Counts(st, fragments[j])
  }

  /** The statement yields SQL for this engine. */
  predicate Yields(e: Engine, st: Statement) {
    CountsIn(st, e.generate(st), |e.generate(st)|)
  }

  function Piece(e: Engine, st: Statement, fragment: string): string {
    (if st.Raw? then TrimFragment(fragment) else fragment) + e.separator
  }

  function Pieces(e: Engine, st: Statement, fragments: seq<string>): string {
    if fragments == [] then ""
    else Pieces(e, st, fragments[..|fragments| - 1]) + Piece(e, st, fragments[|fragments| - 1])
  }

  /** The engine's script: its own fragments for each statement in turn, each with its separator. */
  function Script(e: Engine, statements: seq<Statement>): string {
    if statements == [] then ""
    else
      var last := statements[|statements| - 1];
      Script(e, statements[..|statements| - 1]) + Pieces(e, last, e.generate(last))
  }

  predicate YieldsIn(engines: seq<Engine>, st: Statement, n: nat)
    requires n <= |engines|
  {
    exists i :: 0 <= i < n && Yields(engines[i], st)
  }

  /** Every engine accepts the statement and at least one yields SQL for it. */
  predicate IsCovered(engines: seq<Engine>, st: Statement) {
    && (forall i :: 0 <= i < |engines| ==> Accepts(engines[i], st))
    && YieldsIn(engines, st, |engines|)
  }

  /** Every statement is covered. */
  predicate AllCovered(engines: seq<Engine>, statements: seq<Statement>) {
    statements == [] ||
    (AllCovered(engines, statements[..|statements| - 1]) && IsCovered(engines, statements[|statements| - 1]))
  }

  lemma {:induction false} AllCoveredIff(engines: seq<Engine>, statements: seq<Statement>)
    ensures AllCovered(engines, statements)
            <==> forall i :: 0 <= i < |statements| ==> IsCovered(engines, statements[i])
  {
    if statements != [] {
      var n := |statements| - 1;
      AllCoveredIff(engines, statements[..n]);
      assert forall i :: 0 <= i < n ==> statements[..n][i] == statements[i];
    }
  }

  lemma {:induction false} AllCoveredStep(engines: seq<Engine>, before: seq<Statement>, st: Statement,
                                          rest: seq<Statement>)
    ensures AllCovered(engines, before + [st]) <==> AllCovered(engines, before) && IsCovered(engines, st)
    ensures AllCovered(engines, before + [st] + rest) ==> AllCovered(engines, before + [st])
  {
    assert (before + [st])[..|before|] == before;
    if rest == [] {
      assert before + [st] + rest == before + [st];
    } else {
      var n := |rest| - 1;
      assert (before + [st] + rest)[..|before| + 1 + n] == before + [st] + rest[..n];
      AllCoveredStep(engines, before, st, rest[..n]);
    }
  }

  ghost predicate DistinctNames(engines: seq<Engine>) {
    forall i, j :: 0 <= i < |engines| && 0 <= j < |engines| && i != j ==> engines[i].name != engines[j].name
  }

  predicate Holds(scripts: map<string, string>, e: Engine, text: string) {
    e.name in scripts && scripts[e.name] == text
  }

  predicate IsName(engines: seq<Engine>, name: string) {
    exists i :: 0 <= i < |engines| && engines[i].name == name
  }

  /** Once there was a statement, there is one script per engine; before that, there is none. */
  ghost predicate AreScripts(engines: seq<Engine>, statements: seq<Statement>,
                             scripts: map<string, string>) {
    if statements == [] then scripts == map[]
    else
      && (forall i :: 0 <= i < |engines| ==> Holds(scripts, engines[i], Script(engines[i], statements)))
      && (forall n :: n in scripts ==> IsName(engines, n))
  }

  // ---------- the generator ----------

  lemma {:induction false} PiecesStep(e: Engine, st: Statement, fragments: seq<string>, i: nat)
    requires i < |fragments|
    ensures Pieces(e, st, fragments[..i + 1])
            == Pieces(e, st, fragments[..i]) + Piece(e, st, fragments[i])
  {
    assert fragments[..i + 1][..i] == fragments[..i];
  }

  /** One fragment; raw SQL is trimmed, and refused if it is terminated. */
  method AppendFragment(e: Engine, st: Statement, fragment: string, script: string)
    returns (ok: bool, grown: string, counts: bool)
    ensures ok == !IsRefused(st, fragment)
    ensures ok ==> grown == script + Piece(e, st, fragment) && counts == Counts(st, fragment)
  {
    ok, grown, counts := true, script, true;
    if st.Raw? {
      counts := fragment != "";
      if IsTerminated(fragment) {
        ok := false;
        return;
      }
      grown := grown + (TrimFragment(fragment) + e.separator);
    } else {
      grown := grown + (fragment + e.separator);
    }
  }

  lemma {:induction false} FragmentStep(e: Engine, st: Statement, fragments: seq<string>, script: string, i: nat)
    requires i < |fragments|
    ensures script + Pieces(e, st, fragments[..i]) + Piece(e, st, fragments[i])
            == script + Pieces(e, st, fragments[..i + 1])
    ensures CountsIn(st, fragments, i + 1) <==> CountsIn(st, fragments, i) || Counts(st, fragments[i])
  {
    PiecesStep(e, st, fragments, i);
    Regroup(script, Pieces(e, st, fragments[..i]), Piece(e, st, fragments[i]));
  }

  /** The innermost loop: one engine's fragments for one statement, appended to its script. */
  method AppendFragments(e: Engine, st: Statement, script: string)
    returns (ok: bool, grown: string, found: bool)
    ensures ok == Accepts(e, st)
    ensures ok ==> grown == script + Pieces(e, st, e.generate(st)) && found == Yields(e, st)
  {
    ok, grown, found := false, script, false;
    if st.Unknown? {
      return;
    }
    var fragments := e.generate(st);
    var i := 0;
    while i < |fragments|
      invariant 0 <= i <= |fragments|
      invariant grown == script + Pieces(e, st, fragments[..i])
      invariant forall j :: 0 <= j < i ==> !IsRefused(st, fragments[j])
      invariant found <==> CountsIn(st, fragments, i)
    {
      var counts;
      FragmentStep(e, st, fragments, script, i);
      ok, grown, counts := AppendFragment(e, st, fragments[i], grown);
      if !ok {
        return;
      }
      found := found || counts;
      i := i + 1;
    }
    assert fragments[..i] == fragments;
    ok := true;
  }

  lemma {:induction false} Regroup(a: string, b: string, c: string)
    ensures a + b + c == a + (b + c)
  {
  }

  /** The middle loop: one statement for every engine; a script is started the first time its engine is met. */
  method AppendStatement(engines: seq<Engine>, ghost before: seq<Statement>, st: Statement,
                         scripts: map<string, string>)
    returns (ok: bool, grown: map<string, string>)
    requires DistinctNames(engines) && AreScripts(engines, before, scripts)
    ensures ok == IsCovered(engines, st)
    ensures ok ==> AreScripts(engines, before + [st], grown)
  {
    ok, grown := false, scripts;
    var anyFound := false;
    var k := 0;
    HalfGrownStart(engines, before, st, scripts);
    while k < |engines|
      invariant 0 <= k <= |engines|
      invariant AllAccept(engines, st, k)
      invariant anyFound <==> YieldsIn(engines, st, k)
      invariant HalfGrown(engines, before, before + [st], k, grown)
    {
      var accepted, longer, found := AppendForEngine(engines, before, st, k, grown);
      AcceptStep(engines, st, k);
      YieldsStep(engines, st, k);
      if !accepted {
        return;
      }
      grown := longer;
      anyFound := anyFound || found;
      k := k + 1;
    }
    HalfGrownEnd(engines, before, st, grown);
    ok := anyFound;
  }

  /** One turn of it: the script of engine `k`. */
  method AppendForEngine(engines: seq<Engine>, ghost before: seq<Statement>, st: Statement, k: nat,
                         scripts: map<string, string>)
    returns (ok: bool, grown: map<string, string>, found: bool)
    requires DistinctNames(engines) && k < |engines| && HalfGrown(engines, before, before + [st], k, scripts)
    ensures ok == Accepts(engines[k], st)
    ensures ok ==> HalfGrown(engines, before, before + [st], k + 1, grown) && found == Yields(engines[k], st)
  {
    var e := engines[k];
    assert Pending(engines[k], before, scripts);
    var script := if e.name in scripts then scripts[e.name] else "";
    var longer;
    ok, longer, found := AppendFragments(e, st, script);
    grown := scripts[e.name := longer];
    if ok {
      ScriptStep(e, before, st);
      UpdateOne(engines, before, before + [st], k, scripts, longer);
    }
  }

  ghost predicate AllAccept(engines: seq<Engine>, st: Statement, k: nat)
    requires k <= |engines|
  {
    forall i :: 0 <= i < k ==> Accepts(engines[i], st)
  }

  lemma {:induction false} AcceptStep(engines: seq<Engine>, st: Statement, k: nat)
    requires k < |engines|
    ensures AllAccept(engines, st, k + 1) <==> AllAccept(engines, st, k) && Accepts(engines[k], st)
    ensures IsCovered(engines, st) ==> Accepts(engines[k], st)
  {
  }

  lemma {:induction false} HalfGrownStart(engines: seq<Engine>, before: seq<Statement>, st: Statement,
                                          scripts: map<string, string>)
    requires AreScripts(engines, before, scripts)
    ensures HalfGrown(engines, before, before + [st], 0, scripts)
  {
  }

  lemma {:induction false} HalfGrownEnd(engines: seq<Engine>, before: seq<Statement>, st: Statement,
                                        scripts: map<string, string>)
    requires HalfGrown(engines, before, before + [st], |engines|, scripts)
    ensures AreScripts(engines, before + [st], scripts)
  {
  }

  /** The engine's script has not been extended yet, or not been started. */
  predicate Pending(e: Engine, before: seq<Statement>, scripts: map<string, string>) {
    if before == [] then e.name !in scripts else Holds(scripts, e, Script(e, before))
  }

  lemma {:induction false} YieldsStep(engines: seq<Engine>, st: Statement, k: nat)
    requires k < |engines|
    ensures YieldsIn(engines, st, k + 1) <==> YieldsIn(engines, st, k) || Yields(engines[k], st)
  {
  }

  /** The scripts of the first `k` engines have been extended, and the others not yet. */
  ghost predicate HalfGrown(engines: seq<Engine>, before: seq<Statement>, all: seq<Statement>, k: nat,
                            scripts: map<string, string>) {
    && k <= |engines|
    && (forall i :: 0 <= i < k ==> Holds(scripts, engines[i], Script(engines[i], all)))
    && (forall i :: k <= i < |engines| ==> Pending(engines[i], before, scripts))
    && (forall n :: n in scripts ==> IsName(engines, n))
  }

  lemma {:induction false} UpdateOne(engines: seq<Engine>, before: seq<Statement>, all: seq<Statement>, k: nat,
                                     scripts: map<string, string>, text: string)
    requires DistinctNames(engines) && k < |engines| && text == Script(engines[k], all)
    requires HalfGrown(engines, before, all, k, scripts)
    ensures HalfGrown(engines, before, all, k + 1, scripts[engines[k].name := text])
  {
    var next := scripts[engines[k].name := text];
    forall i | 0 <= i < k + 1
      ensures Holds(next, engines[i], Script(engines[i], all))
    {
      assert i < k ==> Holds(scripts, engines[i], Script(engines[i], all));
    }
    forall i | k + 1 <= i < |engines|
      ensures Pending(engines[i], before, next)
    {
      assert Pending(engines[i], before, scripts);
    }
    assert IsName(engines, engines[k].name);
  }

  lemma {:induction false} ScriptStep(e: Engine, before: seq<Statement>, st: Statement)
    ensures Script(e, before + [st]) == Script(e, before) + Pieces(e, st, e.generate(st))
  {
    var all := before + [st];
    assert all[..|all| - 1] == before;
  }

  /** The outer loop. It throws, or yields every engine's script. */
  method BuildScripts(engines: seq<Engine>, statements: seq<Statement>)
    returns (ok: bool, scripts: map<string, string>)
    requires DistinctNames(engines)
    ensures ok == AllCovered(engines, statements)
    ensures ok ==> AreScripts(engines, statements, scripts)
  {
    ok, scripts := true, map[];
    ghost var done := [];
    var i := 0;
    while i < |statements|
      invariant 0 <= i <= |statements| && ok && done == statements[..i]
      invariant AllCovered(engines, done)
      invariant AreScripts(engines, done, scripts)
    {
      ghost var st, rest := statements[i], statements[i + 1..];
      assert done + [st] + rest == statements;
      AllCoveredStep(engines, done, st, rest);
      ok, scripts := AppendStatement(engines, done, statements[i], scripts);
      if !ok {
        return;
      }
      done := done + [statements[i]];
      i := i + 1;
    }
    assert done == statements;
  }

  // ---------- the files ----------

  function FileName(e: Engine): string {
    "UpgradeXtoY" + e.name + ".sql"
  }

  function PathOf(directory: string, e: Engine): string {
    Append(directory, FileName(e))
  }

  lemma {:induction false} PathsDiffer(directory: string, a: Engine, b: Engine)
    requires a.name != b.name
    ensures PathOf(directory, a) != PathOf(directory, b)
  {
    var p, q := FileName(a), FileName(b);
    assert p[0] == 'U' && p[1] == 'p' && q[0] == 'U' && q[1] == 'p';
    assert p[11..|p| - 4] == a.name && q[11..|q| - 4] == b.name;
    if directory != "" {
      var d := directory + Separator(directory);
      assert (d + p)[|d|..] == p && (d + q)[|d|..] == q;
    }
  }

  predicate IsAscii(c: char) {
    c as int < 128
  }

  /** The ASCII encoder writes a question mark for each UTF-16 unit it lacks. */
  function AsciiOf(c: char): string {
    if IsAscii(c) then [c] else if c as int < 0x1_0000 then "?" else "??"
  }

  function Ascii(text: string): (r: string)
    ensures |text| <= |r|
  {
    if text == "" then "" else Ascii(text[..|text| - 1]) + AsciiOf(text[|text| - 1])
  }

  /** A script is on file as it was generated exactly when all of it is ASCII. */
  lemma {:induction false} AsciiKeeps(text: string)
    ensures Ascii(text) == text <==> forall i :: 0 <= i < |text| ==> IsAscii(text[i])
  {
    if text != "" {
      var front, last := text[..|text| - 1], text[|text| - 1];
      AsciiKeeps(front);
      assert text == front + [last];
      assert forall i :: 0 <= i < |front| ==> front[i] == text[i];
      if Ascii(text) == text {
        SameParts(Ascii(front), AsciiOf(last), front, [last]);
      }
    }
  }

  /** Every other character becomes a question mark, in its place. */
  lemma {:induction false} AsciiReplaces(text: string)
    requires forall i :: 0 <= i < |text| ==> text[i] as int < 0x1_0000
    ensures |Ascii(text)| == |text|
    ensures forall i :: 0 <= i < |text| ==> Ascii(text)[i] == if text[i] as int < 128 then text[i] else '?'
  {
    if text != "" {
      AsciiReplaces(text[..|text| - 1]);
    }
  }

  lemma {:induction false} SameParts(a: string, b: string, c: string, d: string)
    requires a + b == c + d && |c| <= |a| && |d| <= |b|
    ensures a == c && b == d
  {
    assert (a + b)[..|a|] == a && (c + d)[..|c|] == c;
    assert (a + b)[|a|..] == b && (c + d)[|c|..] == d;
  }

  function FileText(e: Engine, statements: seq<Statement>): string {
    Ascii(Script(e, statements))
  }

  /** The files after writing the scripts of the first `k` engines. */
  ghost predicate Written(directory: string, engines: seq<Engine>, statements: seq<Statement>, k: nat,
                          before: map<string, string>, after: map<string, string>) {
    && k <= |engines|
    && (forall i :: 0 <= i < k ==>
          FileHolds(after, PathOf(directory, engines[i]), FileText(engines[i], statements)))
    && (forall p :: p !in ScriptPaths(directory, engines) ==> SameFile(before, after, p))
  }

  predicate FileHolds(files: map<string, string>, path: string, text: string) {
    path in files && files[path] == text
  }

  predicate SameFile(a: map<string, string>, b: map<string, string>, path: string) {
    if path in a then path in b && b[path] == a[path] else path !in b
  }

  ghost function ScriptPaths(directory: string, engines: seq<Engine>): set<string> {
    set e | e in engines :: PathOf(directory, e)
  }

  lemma {:induction false} WriteOne(directory: string, engines: seq<Engine>, statements: seq<Statement>,
                                    k: nat, before: map<string, string>, after: map<string, string>, script: string)
    requires DistinctNames(engines) && k < |engines| && Written(directory, engines, statements, k, before, after)
    requires script == Script(engines[k], statements)
    ensures Written(directory, engines, statements, k + 1, before,
                    after[PathOf(directory, engines[k]) := Ascii(script)])
  {
    var path := PathOf(directory, engines[k]);
    var next := after[path := Ascii(script)];
    forall i | 0 <= i < k + 1
      ensures FileHolds(next, PathOf(directory, engines[i]), FileText(engines[i], statements))
    {
      if i < k {
        PathsDiffer(directory, engines[i], engines[k]);
        assert FileHolds(after, PathOf(directory, engines[i]), FileText(engines[i], statements));
      }
    }
    assert engines[k] in engines && path in ScriptPaths(directory, engines);
    forall p | p !in ScriptPaths(directory, engines)
      ensures SameFile(before, next, p)
    {
      assert SameFile(before, after, p);
    }
  }

  class Generator {
    const engines: seq<Engine>
    const directory: string
    var files: map<string, string>

    constructor (engines: seq<Engine>, directory: string, files: map<string, string>)
      ensures this.engines == engines && this.directory == directory && this.files == files
    {
      this.engines, this.directory, this.files := engines, directory, files;
    }

    /**
     Either it throws and no file changes, or each engine's file holds that engine's own script, in ASCII, and no
     other file changes. It throws exactly when some statement is unknown, is terminated raw SQL, or yields SQL for
     no engine.
     */
    method Generate(statements: seq<Statement>) returns (ok: bool)
      requires DistinctNames(engines)
      modifies this
      ensures ok == AllCovered(engines, statements)
      ensures if ok && statements != [] then Written(directory, engines, statements, |engines|, old(files), files)
              else files == old(files)
    {
      var scripts;
      ok, scripts := BuildScripts(engines, statements);
      if !ok || statements == [] {
        return;
      }
      var k := 0;
      while k < |engines|
        invariant 0 <= k <= |engines|
        invariant Written(directory, engines, statements, k, old(files), files)
      {
        assert Holds(scripts, engines[k], Script(engines[k], statements));
        WriteOne(directory, engines, statements, k, old(files), files, scripts[engines[k].name]);
        files := files[PathOf(directory, engines[k]) := Ascii(scripts[engines[k].name])];
        k := k + 1;
      }
    }
  }


  // ---------- what is in a script, and what is refused ----------

  /** An engine's fragments for a statement as they go into its script. */
  function Own(e: Engine, st: Statement): (r: seq<string>)
    ensures |r| == |e.generate(st)|
  {
    seq(|e.generate(st)|, i requires 0 <= i < |e.generate(st)| =>
      if st.Raw? then Trim(IsWhiteSpace, e.generate(st)[i]) else e.generate(st)[i])
  }

  function FragmentsOf(e: Engine, statements: seq<Statement>): seq<string> {
    if statements == [] then []
    else FragmentsOf(e, statements[..|statements| - 1]) + Own(e, statements[|statements| - 1])
  }

  /** Fragments in order, each followed by the separator. */
  function Followed(fragments: seq<string>, separator: string): string {
    if fragments == [] then "" else fragments[0] + separator + Followed(fragments[1..], separator)
  }

  lemma {:induction false} FollowedConcat(a: seq<string>, b: seq<string>, separator: string)
    ensures Followed(a + b, separator) == Followed(a, separator) + Followed(b, separator)
  {
    if a == [] {
      assert a + b == b;
    } else {
      assert (a + b)[1..] == a[1..] + b;
      FollowedConcat(a[1..], b, separator);
      Regroup(a[0] + separator, Followed(a[1..], separator), Followed(b, separator));
    }
  }

  lemma {:induction false} PiecesAre(e: Engine, st: Statement, n: nat)
    requires n <= |e.generate(st)|
    ensures Pieces(e, st, e.generate(st)[..n]) == Followed(Own(e, st)[..n], e.separator)
  {
    if n > 0 {
      var front, last := Own(e, st)[..n - 1], Own(e, st)[n - 1];
      PiecesAre(e, st, n - 1);
      PiecesStep(e, st, e.generate(st), n - 1);
      FollowedConcat(front, [last], e.separator);
      assert Own(e, st)[..n] == front + [last];
      assert [last][1..] == [] && Followed([last], e.separator) == last + e.separator + "";
    }
  }

  /** An engine's script is its own fragments in order, raw SQL trimmed, each with the separator behind it. */
  lemma {:induction false} ScriptIs(e: Engine, statements: seq<Statement>)
    ensures Script(e, statements) == Followed(FragmentsOf(e, statements), e.separator)
  {
    if statements != [] {
      var front, last := statements[..|statements| - 1], statements[|statements| - 1];
      ScriptIs(e, front);
      PiecesAre(e, last, |e.generate(last)|);
      assert e.generate(last)[..|e.generate(last)|] == e.generate(last);
      assert Own(e, last)[..|Own(e, last)|] == Own(e, last);
      FollowedConcat(FragmentsOf(e, front), Own(e, last), e.separator);
    }
  }

  /** A fragment with SQL in it. */
  predicate HasSql(engines: seq<Engine>, st: Statement, i: int, j: int) {
    0 <= i < |engines| && 0 <= j < |engines[i].generate(st)| && (st.Raw? ==> engines[i].generate(st)[j] != "")
  }

  /** A fragment of raw SQL that ends, white space aside, with a semicolon. */
  predicate IsEnded(engines: seq<Engine>, st: Statement, i: int, j: int) {
    && st.Raw? && 0 <= i < |engines| && 0 <= j < |engines[i].generate(st)|
    && var sql := Trim(IsWhiteSpace, engines[i].generate(st)[j]); sql != "" && sql[|sql| - 1] == ';'
  }

  /** What is refused: statements of no known kind, raw SQL that is ended, and statements that yield SQL nowhere. */
  lemma {:induction false} CoveredIff(engines: seq<Engine>, st: Statement)
    ensures IsCovered(engines, st)
            <==> && !st.Unknown? && (forall i, j :: !IsEnded(engines, st, i, j))
                 && exists i, j :: HasSql(engines, st, i, j)
  {
    if IsCovered(engines, st) {
      var i :| 0 <= i < |engines| && Yields(engines[i], st);
      var j :| 0 <= j < |engines[i].generate(st)| && Counts(st, engines[i].generate(st)[j]);
      assert HasSql(engines, st, i, j);
      forall i, j
        ensures !IsEnded(engines, st, i, j)
      {
        if 0 <= i < |engines| && 0 <= j < |engines[i].generate(st)| {
          assert !IsRefused(st, engines[i].generate(st)[j]);
          LastSemicolon(Trim(IsWhiteSpace, engines[i].generate(st)[j]));
        }
      }
    }
    if !st.Unknown? && (forall i, j :: !IsEnded(engines, st, i, j)) && exists i, j :: HasSql(engines, st, i, j) {
      var i, j :| HasSql(engines, st, i, j);
      assert Counts(st, engines[i].generate(st)[j]);
      assert Yields(engines[i], st);
      forall i, j | 0 <= i < |engines| && 0 <= j < |engines[i].generate(st)|
        ensures !IsRefused(st, engines[i].generate(st)[j])
      {
        assert !IsEnded(engines, st, i, j);
        LastSemicolon(Trim(IsWhiteSpace, engines[i].generate(st)[j]));
      }
    }
  }

  lemma {:induction false} LastSemicolon(s: string)
    ensures EndsWith(s, ";") <==> s != "" && s[|s| - 1] == ';'
  {
    if s != "" {
      assert s[|s| - 1..] == [s[|s| - 1]];
    }
  }

  /** The file of an engine, in a directory that ends with a separator. */
  lemma {:induction false} FileIs(directory: string, e: Engine)
    requires directory != "" && directory[|directory| - 1] == '\\'
    ensures PathOf(directory, e) == directory + ("UpgradeXtoY" + e.name + ".sql")
  {
    var p := FileName(e);
    assert p[0] == 'U' && p[1] == 'p';
  }
}
