/** What the scanner reports, in terms of the nodes and lines of a source alone. */
module ScopingAnswers {
  import opened Options
  import opened Scoping
  import opened Sorting
  import opened Strings

  // ---------- The tree ----------

  /** A chain of nodes, each the parent of the next. */
  ghost predicate Chain(src: Source, p: seq<nat>, top: nat, k: nat) {
    && p != [] && p[0] == top && p[|p| - 1] == k && k < |src.nodes|
    && forall i | 0 < i < |p| :: p[i - 1] < p[i] < |src.nodes| && src.nodes[p[i]].parent == p[i - 1]
  }

  /** A node is under another exactly if a chain of parents leads to it. */
  lemma {:induction false} UnderIff(src: Source, top: nat, k: nat)
    ensures Under(src, top, k) <==> exists p :: Chain(src, p, top, k)
    decreases k
  {
    if k < |src.nodes| {
      var up := src.nodes[k].parent;
      if k == top {
        assert Chain(src, [k], top, k);
      } else if up < k {
        UnderIff(src, top, up);
        if p :| Chain(src, p, top, up) {
          assert Chain(src, p + [k], top, k);
        }
      }
      if p :| Chain(src, p, top, k) && k != top {
        var q := p[..|p| - 1];
        assert |p| > 1 && p[|p| - 1 - 1] == up && up < k;
        assert Chain(src, q, top, up) by {
          assert q[|q| - 1] == up && forall i | 0 <= i < |q| :: q[i] == p[i];
        }
      }
    }
  }

  // ---------- Queries ----------

  /** A positional argument of the call, or the value of a keyword argument. */
  ghost predicate ArgumentOf(src: Source, call: nat, top: nat)
    requires IsCall(src, call)
  {
    || (exists i :: 0 <= i < |src.nodes[call].kind.args| && src.nodes[call].kind.args[i] == top)
    || exists i :: 0 <= i < |src.nodes[call].kind.keywords| && src.nodes[call].kind.keywords[i].value == top
  }

  /** The name is used somewhere in the expression. */
  ghost predicate UsesName(src: Source, top: nat, name: string) {
    exists x: nat :: x < |src.nodes| && Under(src, top, x) && src.nodes[x].kind == Name(name)
  }

  ghost predicate NamesTable(src: Source, call: nat, table: string)
    requires IsCall(src, call)
  {
    exists top: nat :: ArgumentOf(src, call, top) && UsesName(src, top, table)
  }

  /** The call is of this name, bare or as an attribute. */
  ghost predicate CallsBy(src: Source, call: nat, name: string)
    requires WellFormed(src) && IsCall(src, call)
  {
    var func := src.nodes[src.nodes[call].kind.func].kind;
    func == Name(name) || (func.Attribute? && func.attr == name)
  }

  lemma {:induction false} UsesNameIff(src: Source, top: nat, name: string)
    ensures name in NamesUnder(src, top) <==> UsesName(src, top, name)
  {
    hide Under;
    if x: nat :| x < |src.nodes| && Under(src, top, x) && src.nodes[x].kind == Name(name) {
      assert x in Walk(src, top);
    }
    if name in NamesUnder(src, top) {
      var x :| x in Walk(src, top) && src.nodes[x].kind.Name? && src.nodes[x].kind.id == name;
      assert Under(src, top, x);
    }
  }

  lemma {:induction false} NamesTableIff(src: Source, call: nat, table: string)
    requires IsCall(src, call)
    ensures table in Referenced(src, call) <==> NamesTable(src, call, table)
  {
    hide NamesUnder, UsesName;
    forall top: nat
      ensures table in NamesUnder(src, top) <==> UsesName(src, top, table)
    {
      UsesNameIff(src, top, table);
    }
  }

  /** A query is a call of one of four names with one of two table names in an argument. */
  lemma {:induction false} QueryIff(src: Source, call: nat)
    requires WellFormed(src) && IsCall(src, call)
    ensures Query(src, call)
       <==> && (CallsBy(src, call, "select") || CallsBy(src, call, "update") || CallsBy(src, call, "delete")
                || CallsBy(src, call, "insert"))
            && (NamesTable(src, call, "memory_facts") || NamesTable(src, call, "memory_insights"))
    ensures forall t ::
              t in Matched(Referenced(src, call))
              <==> (t == "memory_facts" || t == "memory_insights") && NamesTable(src, call, t)
    ensures forall name ::
              DmlName(src, call) == Some(name)
              <==> && CallsBy(src, call, name)
                   && (name == "select" || name == "update" || name == "delete" || name == "insert")
  {
    hide Referenced, NamesTable;
    NamesTableIff(src, call, "memory_facts");
    NamesTableIff(src, call, "memory_insights");
  }

  // ---------- Excuses ----------

  ghost predicate IsUserAttribute(src: Source, x: nat) {
    x < |src.nodes| && src.nodes[x].kind.Attribute? && src.nodes[x].kind.attr == "user_id"
  }

  /** As a name or as an attribute. */
  ghost predicate UsesUser(src: Source, top: nat) {
    UsesName(src, top, "user_id")
    || exists x: nat :: Under(src, top, x) && IsUserAttribute(src, x)
  }

  /** `user_id` in a positional argument, as a keyword, or as a name in the value of one. */
  ghost predicate TellsUser(src: Source, call: nat)
    requires IsCall(src, call)
  {
    || (exists i :: 0 <= i < |src.nodes[call].kind.args| && UsesUser(src, src.nodes[call].kind.args[i]))
    || (exists i :: 0 <= i < |src.nodes[call].kind.keywords| && src.nodes[call].kind.keywords[i].arg == Some("user_id"))
    || (exists i :: 0 <= i < |src.nodes[call].kind.keywords|
                 && UsesName(src, src.nodes[call].kind.keywords[i].value, "user_id"))
  }

  lemma {:induction false} UsesAttributeIff(src: Source, top: nat)
    ensures AttributeUnder(src, top, "user_id")
       <==> exists x: nat :: Under(src, top, x) && IsUserAttribute(src, x)
  {
    hide Under;
    if x: nat :| Under(src, top, x) && IsUserAttribute(src, x) {
      assert x in Walk(src, top) && IsAttribute(src, x, "user_id");
    }
  }

  lemma {:induction false} TellsUserIff(src: Source, call: nat)
    requires IsCall(src, call)
    ensures MentionsUser(src, call) <==> TellsUser(src, call)
  {
    hide NamesUnder, UsesName, AttributeUnder;
    forall top: nat
      ensures "user_id" in NamesUnder(src, top) <==> UsesName(src, top, "user_id")
      ensures AttributeUnder(src, top, "user_id")
         <==> exists x: nat :: Under(src, top, x) && IsUserAttribute(src, x)
    {
      UsesNameIff(src, top, "user_id");
      UsesAttributeIff(src, top);
    }
  }

  /** A comment stands alone on the line, and the marker in it. */
  ghost predicate MarkedLine(src: Source, i: nat)
    requires i < |src.lines|
  {
    exists n: nat, k: nat ::
      && n < |src.lines[i]| && n <= k && src.lines[i][n] == '#' && !src.isSpace('#')
      && (forall m | 0 <= m < n :: src.isSpace(src.lines[i][m]))
      && OccursAt(src.lines[i], "scoped: cross-user", k)
  }

  lemma {:induction false} StripsTo(isSpace: char -> bool, s: string) returns (n: nat)
    ensures n <= |s| && LeftStrip(isSpace, s) == s[n..]
    ensures (forall m | 0 <= m < n :: isSpace(s[m])) && (n < |s| ==> !isSpace(s[n]))
  {
    if s != "" && isSpace(s[0]) {
      var rest := StripsTo(isSpace, s[1..]);
      n := rest + 1;
      assert s[1..][rest..] == s[n..];
      assert forall m | 0 < m < n :: s[m] == s[1..][m - 1];
    } else {
      n := 0;
    }
  }

  lemma OccursBehind(s: string, n: nat, part: string, k: nat)
    requires n <= |s|
    ensures OccursAt(s[n..], part, k) <==> OccursAt(s, part, n + k)
  {
    if n + k + |part| <= |s| {
      assert s[n..][k..k + |part|] == s[n + k..n + k + |part|];
    }
  }

  lemma {:induction false} MarkedLineIff(src: Source, i: nat)
    requires i < |src.lines|
    ensures MarkedComment(src, i) <==> MarkedLine(src, i)
  {
    hide LeftStrip, Contains, OccursAt;
    var line, marker := src.lines[i], CROSS_USER_MARKER;
    var n := StripsTo(src.isSpace, line);
    ContainsIff(line[n..], marker);
    if MarkedComment(src, i) {
      var k: nat :| OccursAt(line[n..], marker, k);
      OccursBehind(line, n, marker, k);
      assert line[n] == '#';
    }
    if MarkedLine(src, i) {
      var m: nat, k: nat :| m < |line| && m <= k && line[m] == '#' && !src.isSpace('#')
        && (forall l | 0 <= l < m :: src.isSpace(line[l])) && OccursAt(line, marker, k);
      assert m == n;
      OccursBehind(line, n, marker, k - n);
    }
  }

  /** The marker is in the docstring, or in a comment line between the first and the last line of the function. */
  ghost predicate SaysCrossUser(src: Source, f: nat)
    requires WellFormed(src) && IsFunction(src, f)
  {
    var fn := src.nodes[f].kind;
    || (fn.docstring.Some? && exists k: nat :: OccursAt(fn.docstring.value, "scoped: cross-user", k))
    || exists i: nat :: i < |src.lines| && src.nodes[f].line <= i + 1
                     && (fn.endLine == None || fn.endLine == Some(0) || i < fn.endLine.value) && MarkedLine(src, i)
  }

  lemma {:induction false} SaysCrossUserIff(src: Source, f: nat)
    requires WellFormed(src) && IsFunction(src, f)
    ensures Annotated(src, f) <==> SaysCrossUser(src, f)
  {
    hide Contains, MarkedComment, MarkedLine, WellFormed, OccursAt;
    if src.nodes[f].kind.docstring.Some? {
      ContainsIff(src.nodes[f].kind.docstring.value, "scoped: cross-user");
    }
    forall i: nat | i < |src.lines|
      ensures MarkedComment(src, i) <==> MarkedLine(src, i)
      ensures src.nodes[f].line - 1 <= i < LastLine(src, f)
         <==> src.nodes[f].line <= i + 1
              && (src.nodes[f].kind.endLine == None || src.nodes[f].kind.endLine == Some(0)
                  || i < src.nodes[f].kind.endLine.value)
    {
      MarkedLineIff(src, i);
    }
  }

  /** A marker, a where or values call that tells the user, or a parameter for the user, anywhere below the function. */
  ghost predicate IsExcused(src: Source, f: nat)
    requires WellFormed(src) && IsFunction(src, f)
  {
    || SaysCrossUser(src, f)
    || (exists call: nat :: Under(src, f, call) && IsCall(src, call) && TellsUser(src, call)
                    && (var func := src.nodes[src.nodes[call].kind.func].kind;
                        func.Attribute? && (func.attr == "where" || func.attr == "values")))
    || (exists g: nat :: Under(src, f, g) && IsFunction(src, g) && "user_id" in src.nodes[g].kind.params)
  }

  lemma {:induction false} ExcusedIff(src: Source, f: nat)
    requires WellFormed(src) && IsFunction(src, f)
    ensures Excused(src, f) <==> IsExcused(src, f)
  {
    hide Under, WellFormed, MentionsUser, TellsUser, Annotated, SaysCrossUser, Filter;
    SaysCrossUserIff(src, f);
    forall call | IsCall(src, call)
      ensures MentionsUser(src, call) <==> TellsUser(src, call)
    {
      TellsUserIff(src, call);
    }
    forall k: nat
      ensures k in Walk(src, f) <==> Under(src, f, k)
    {
    }
  }

  // ---------- The report ----------

  /** A function that stands under no other, with the query under it and no excuse, and one of the query's tables. */
  ghost predicate Reports(src: Source, f: nat, call: nat, name: string, table: string)
    requires WellFormed(src)
  {
    && IsFunction(src, f) && (forall g: nat | IsFunction(src, g) && Under(src, g, f) :: g == f)
    && Under(src, f, call) && IsCall(src, call)
    && (name == "select" || name == "update" || name == "delete" || name == "insert") && CallsBy(src, call, name)
    && (table == "memory_facts" || table == "memory_insights") && NamesTable(src, call, table)
    && !IsExcused(src, f)
  }

  lemma {:induction false} InCollected<T, U>(f: T -> seq<U>, s: seq<T>, x: U)
    ensures x in Collect(f, s) <==> exists y :: y in s && x in f(y)
  {
    if s == [] {
    } else {
      InCollected(f, s[1..], x);
      assert s == [s[0]] + s[1..];
    }
  }

  lemma {:induction false} CallReports(src: Source, f: nat, call: nat, v: Violation)
    requires WellFormed(src) && Outermost(src, f) && Under(src, f, call)
    ensures v in CallViolations(src, f)(call)
       <==> && Reports(src, f, call, v.dml, v.table)
            && v.function_ == src.nodes[f].kind.name && v.line == src.nodes[call].line
  {
    hide Under, Excused, IsExcused, NamesTable, Referenced, Matched;
    ExcusedIff(src, f);
    if IsCall(src, call) {
      QueryIff(src, call);
      if Query(src, call) && !Excused(src, f) {
        var dml, matched := DmlName(src, call).value, Matched(Referenced(src, call));
        var found := Map(ViolationFor(src, f, dml, call), matched);
        if v in found {
          var i :| 0 <= i < |found| && found[i] == v;
          assert v.table == matched[i];
        }
        if v.table in matched && v == ViolationFor(src, f, dml, call)(v.table) {
          var i :| 0 <= i < |matched| && matched[i] == v.table;
          assert found[i] == v;
        }
      }
    }
  }

  /** The violations are exactly these: of each query that is not excused, one kind for each table it names. */
  lemma {:induction false} ViolationIff(src: Source, v: Violation)
    requires WellFormed(src)
    ensures v in ViolationsOf(src)
       <==> exists f: nat, call: nat :: Reports(src, f, call, v.dml, v.table)
              && v.function_ == src.nodes[f].kind.name && v.line == src.nodes[call].line
  {
    hide WellFormed, CallViolations, IsExcused, CallsBy, NamesTable;
    InCollected(FunctionViolations(src), Kept(src), v);
    forall f: nat | f in Kept(src)
      ensures Outermost(src, f) && IsFunction(src, f)
      ensures v in FunctionViolations(src)(f)
         <==> exists call: nat :: Reports(src, f, call, v.dml, v.table)
                && v.function_ == src.nodes[f].kind.name && v.line == src.nodes[call].line
    {
      InCollected(CallViolations(src, f), Walk(src, f), v);
      forall call: nat | Under(src, f, call)
        ensures v in CallViolations(src, f)(call)
           <==> && Reports(src, f, call, v.dml, v.table)
                && v.function_ == src.nodes[f].kind.name && v.line == src.nodes[call].line
      {
        CallReports(src, f, call, v);
      }
    }
    forall f: nat, call: nat | Reports(src, f, call, v.dml, v.table)
      ensures f in Kept(src)
    {
    }
  }
}
