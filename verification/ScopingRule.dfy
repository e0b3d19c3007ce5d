/**
 The rule that the scanner documents, taken from its text, and when a clean scan shows it.

 The text asks that the function around every query contains a `where` clause on the user, or the
 marker for queries across users.  Whether the clause has to be one of the query's own chain, or may
 stand anywhere in the function, it leaves open; everything here is proved for both readings.
 */
module ScopingRule {
  import opened Options
  import opened Scoping
  import opened Strings

  const DOC_MARKER := "# " + CROSS_USER_MARKER

  // ---------- The rule ----------

  predicate HasUserKeyword(keywords: seq<Keyword>) {
    exists i | 0 <= i < |keywords| :: keywords[i].arg == Some(USER_ID)
  }

  /** The node is the token `user_id`: a name, an attribute, or the name of a keyword argument. */
  predicate IsToken(src: Source, x: nat) {
    x < |src.nodes|
    && match src.nodes[x].kind
       case Name(id) => id == USER_ID
       case Attribute(_, attr) => attr == USER_ID
       case Call(_, _, keywords) => HasUserKeyword(keywords)
       case _ => false
  }

  /** A comparison with the token in its left side. */
  predicate LeftMentions(src: Source, x: nat)
    requires WellFormed(src)
  {
    x < |src.nodes| && src.nodes[x].kind.Compare?
    && exists y | y in Walk(src, src.nodes[x].kind.left) :: IsToken(src, y)
  }

  /** `table.c.user_id`, for a scoped table that the query names. */
  predicate UserOfTable(src: Source, query: nat, x: nat)
    requires WellFormed(src) && IsCall(src, query)
  {
    IsAttribute(src, x, USER_ID)
    && IsAttribute(src, src.nodes[x].kind.value, "c")
    && var table := src.nodes[src.nodes[src.nodes[x].kind.value].kind.value].kind;
       table.Name? && table.id in Matched(Referenced(src, query))
  }

  predicate RefersUnder(src: Source, query: nat, top: nat)
    requires WellFormed(src) && IsCall(src, query)
  {
    exists x | x in Walk(src, top) :: UserOfTable(src, query, x) || LeftMentions(src, x)
  }

  /** A call refers to the user: by a keyword argument, an attribute of the table, or a comparison. */
  predicate RefersToUser(src: Source, query: nat, call: nat)
    requires WellFormed(src) && IsCall(src, query) && IsCall(src, call)
  {
    || (exists i | 0 <= i < |src.nodes[call].kind.args| :: RefersUnder(src, query, src.nodes[call].kind.args[i]))
    || HasUserKeyword(src.nodes[call].kind.keywords)
    || (exists i | 0 <= i < |src.nodes[call].kind.keywords| ::
          RefersUnder(src, query, src.nodes[call].kind.keywords[i].value))
  }

  predicate WhereCall(src: Source, call: nat)
    requires WellFormed(src)
  {
    IsCall(src, call) && IsAttribute(src, src.nodes[call].kind.func, "where")
  }

  /** A where call in the function that refers to the user; on the query's own chain if that is asked. */
  predicate IsClause(src: Source, own: bool, f: nat, query: nat, call: nat)
    requires WellFormed(src) && IsCall(src, query)
  {
    && Under(src, f, call)
    && WhereCall(src, call)
    && (own ==> Under(src, src.nodes[call].kind.func, query))
    && RefersToUser(src, query, call)
  }

  predicate HasClause(src: Source, own: bool, f: nat, query: nat)
    requires WellFormed(src) && IsCall(src, query)
  {
    exists call | 0 <= call < |src.nodes| :: IsClause(src, own, f, query, call)
  }

  predicate InLines(src: Source, f: nat, i: nat)
    requires WellFormed(src) && IsFunction(src, f)
  {
    src.nodes[f].line - 1 <= i < LastLine(src, f)
  }

  predicate CommentSays(src: Source, i: nat)
    requires WellFormed(src)
  {
    i < |src.lines| && Contains(src.comments[i], DOC_MARKER)
  }

  predicate DocstringSays(src: Source, f: nat, marker: string)
    requires IsFunction(src, f)
  {
    src.nodes[f].kind.docstring.Some? && Contains(src.nodes[f].kind.docstring.value, marker)
  }

  /** The marker is in the docstring or in a comment of the function. */
  predicate Marked(src: Source, f: nat)
    requires WellFormed(src) && IsFunction(src, f)
  {
    DocstringSays(src, f, DOC_MARKER) || exists i | 0 <= i < |src.lines| :: InLines(src, f, i) && CommentSays(src, i)
  }

  predicate Scoped(src: Source, own: bool, f: nat, query: nat)
    requires WellFormed(src) && IsFunction(src, f) && IsCall(src, query)
  {
    HasClause(src, own, f, query) || Marked(src, f)
  }

  /** Every query stands in a function, and the outermost one around it is scoped. */
  ghost predicate RuleMet(src: Source, own: bool)
    requires WellFormed(src)
  {
    forall c: nat | Query(src, c) ::
      TopFunction(src, c).Some? && IsFunction(src, TopFunction(src, c).value)
      && Scoped(src, own, TopFunction(src, c).value, c)
  }

  // ---------- What the scan takes for the rule ----------

  /** A where or values call that mentions the user, and is no clause in the sense of the rule. */
  predicate LooseClause(src: Source, own: bool, f: nat, query: nat, call: nat)
    requires WellFormed(src) && IsCall(src, query)
  {
    Under(src, f, call) && ChainCall(src, call) && MentionsUser(src, call) && !IsClause(src, own, f, query, call)
  }

  /** The marker without its number sign in the docstring, or on a line that starts like a comment. */
  predicate LooseMarker(src: Source, f: nat)
    requires WellFormed(src) && IsFunction(src, f)
  {
    || (DocstringSays(src, f, CROSS_USER_MARKER) && !DocstringSays(src, f, DOC_MARKER))
    || exists i | 0 <= i < |src.lines| :: InLines(src, f, i) && MarkedComment(src, i) && !CommentSays(src, i)
  }

  /** Nothing but a parameter, a loose clause or a loose marker speaks for the query. */
  ghost predicate LooselyExcused(src: Source, own: bool, f: nat, query: nat)
    requires WellFormed(src) && IsFunction(src, f) && IsCall(src, query)
  {
    && (HasUserParam(src, f)
        || LooseMarker(src, f)
        || exists call: nat :: LooseClause(src, own, f, query, call))
    && !Scoped(src, own, f, query)
  }

  lemma {:induction false} ExcusedUnscopedIff(src: Source, own: bool, f: nat, query: nat)
    requires WellFormed(src) && IsFunction(src, f) && IsCall(src, query) && !Scoped(src, own, f, query)
    ensures Excused(src, f) <==> LooselyExcused(src, own, f, query)
  {
    hide Under, MentionsUser, RefersToUser, MarkedComment, Contains, WellFormed, HasUserParam, WhereCall;
    if HasUserClause(src, f) {
      var call :| call in Walk(src, f) && ChainCall(src, call) && MentionsUser(src, call);
      assert !IsClause(src, own, f, query, call);
      assert LooseClause(src, own, f, query, call);
    }
    if call: nat :| LooseClause(src, own, f, query, call) {
      assert call in Walk(src, f);
    }
    if i: nat :| src.nodes[f].line - 1 <= i < LastLine(src, f) && MarkedComment(src, i) {
      assert InLines(src, f, i) && !CommentSays(src, i);
    }
  }

  lemma OutermostIsFunction(src: Source, f: nat)
    requires Outermost(src, f)
    ensures IsFunction(src, f)
  {
  }

  lemma {:induction false} ScopedOrLoose(src: Source, own: bool, f: nat, query: nat)
    requires WellFormed(src) && IsFunction(src, f) && IsCall(src, query)
    ensures Excused(src, f) ==> (Scoped(src, own, f, query) <==> !LooselyExcused(src, own, f, query))
  {
    hide Excused, WellFormed, HasUserParam, LooseMarker, LooseClause;
    if !Scoped(src, own, f, query) {
      ExcusedUnscopedIff(src, own, f, query);
    }
  }

  /**
   A clean scan shows the rule exactly if every query stands in a function, and none in a function
   where only a parameter, a loose clause or a loose marker speaks for it.
   */
  lemma {:induction false} CleanShowsRuleIff(src: Source, own: bool)
    requires WellFormed(src) && ViolationsOf(src) == []
    ensures RuleMet(src, own)
       <==> forall c: nat | Query(src, c) ::
              InFunction(src, c)
              && forall f: nat | Outermost(src, f) && Under(src, f, c) :: !LooselyExcused(src, own, f, c)
  {
    hide WellFormed, DmlName, Referenced, Matched, TopFunction, InFunction, Outermost, Under, Excused, Scoped;
    hide LooselyExcused, ViolationsOf;
    CleanIff(src);
    forall c: nat | Query(src, c)
      ensures TopFunction(src, c).Some? <==> InFunction(src, c)
    {
      TopIsKept(src, c);
    }
    forall c: nat, f: nat
      ensures TopFunction(src, c) == Some(f) <==> Outermost(src, f) && Under(src, f, c)
    {
      KeptAboveIff(src, c, f);
    }
    forall c: nat, f: nat | Query(src, c) && Outermost(src, f) && Under(src, f, c)
      ensures IsFunction(src, f) && (Excused(src, f) ==> (Scoped(src, own, f, c) <==> !LooselyExcused(src, own, f, c)))
    {
      OutermostIsFunction(src, f);
      ScopedOrLoose(src, own, f, c);
    }
  }

  // ---------- What the scan does not see ----------

  /** A comparison with a keyword argument `user_id` in its left side. */
  predicate KeywordInLeft(src: Source, x: nat)
    requires WellFormed(src)
  {
    x < |src.nodes| && src.nodes[x].kind.Compare?
    && exists y | y in Walk(src, src.nodes[x].kind.left) :: IsCall(src, y) && HasUserKeyword(src.nodes[y].kind.keywords)
  }

  predicate KeywordInLeftUnder(src: Source, top: nat)
    requires WellFormed(src)
  {
    exists x | x in Walk(src, top) :: KeywordInLeft(src, x)
  }

  /** The reference stands in a keyword's value, or is a keyword inside the left side of a comparison. */
  predicate HiddenReference(src: Source, query: nat, call: nat)
    requires WellFormed(src) && IsCall(src, query) && IsCall(src, call)
  {
    || (exists i | 0 <= i < |src.nodes[call].kind.args| :: KeywordInLeftUnder(src, src.nodes[call].kind.args[i]))
    || (exists i | 0 <= i < |src.nodes[call].kind.keywords| ::
          RefersUnder(src, query, src.nodes[call].kind.keywords[i].value))
  }

  /** Such a clause, where the scan finds no mention of the user. */
  predicate HiddenClause(src: Source, own: bool, f: nat, query: nat, call: nat)
    requires WellFormed(src) && IsCall(src, query)
  {
    && Under(src, f, call)
    && WhereCall(src, call)
    && (own ==> Under(src, src.nodes[call].kind.func, query))
    && HiddenReference(src, query, call)
    && !MentionsUser(src, call)
  }

  /** A comment with the marker behind some code. */
  predicate TrailingMarker(src: Source, i: nat)
    requires WellFormed(src)
  {
    CommentSays(src, i) && !("#" <= LeftStrip(src.isSpace, src.lines[i]))
  }

  /** Nothing that the scan sees speaks for the query, only a trailing comment or a hidden clause. */
  ghost predicate Overlooked(src: Source, own: bool, f: nat, query: nat)
    requires WellFormed(src) && IsFunction(src, f) && IsCall(src, query)
  {
    && !Excused(src, f)
    && ((exists i: nat :: InLines(src, f, i) && TrailingMarker(src, i))
        || exists call: nat :: HiddenClause(src, own, f, query, call))
  }

  lemma {:induction false} UnderTransitive(src: Source, a: nat, b: nat, c: nat)
    requires Under(src, a, b) && Under(src, b, c)
    ensures Under(src, a, c)
    decreases c
  {
    if b == c {
    } else {
      UnderTransitive(src, a, b, src.nodes[c].parent);
    }
  }

  /** The left side of a comparison below a node is below it too. */
  lemma {:induction false} LeftIsUnder(src: Source, top: nat, x: nat, y: nat)
    requires WellFormed(src) && Under(src, top, x) && src.nodes[x].kind.Compare?
    requires Under(src, src.nodes[x].kind.left, y)
    ensures Under(src, top, y)
  {
    var left := src.nodes[x].kind.left;
    assert Under(src, top, left);
    UnderTransitive(src, top, left, y);
  }

  lemma {:induction false} HiddenAt(src: Source, query: nat, top: nat, x: nat)
    requires WellFormed(src) && IsCall(src, query) && x in Walk(src, top)
    requires USER_ID !in NamesUnder(src, top) && !AttributeUnder(src, top, USER_ID)
    ensures UserOfTable(src, query, x) || LeftMentions(src, x) <==> KeywordInLeft(src, x)
  {
    hide Under, Filter, Matched, Referenced, HasUserKeyword;
    assert !IsAttribute(src, x, USER_ID);
    if LeftMentions(src, x) {
      var y :| y in Walk(src, src.nodes[x].kind.left) && IsToken(src, y);
      LeftIsUnder(src, top, x, y);
      assert y in Walk(src, top);
      assert !IsAttribute(src, y, USER_ID);
    }
  }

  /** An argument in which the scan finds no user refers to it only by a keyword in a left side. */
  lemma {:induction false} HiddenInArgument(src: Source, query: nat, top: nat)
    requires WellFormed(src) && IsCall(src, query)
    requires USER_ID !in NamesUnder(src, top) && !AttributeUnder(src, top, USER_ID)
    ensures RefersUnder(src, query, top) <==> KeywordInLeftUnder(src, top)
  {
    hide Walk, NamesUnder, AttributeUnder, UserOfTable, LeftMentions, KeywordInLeft, WellFormed;
    forall x | x in Walk(src, top)
      ensures UserOfTable(src, query, x) || LeftMentions(src, x) <==> KeywordInLeft(src, x)
    {
      HiddenAt(src, query, top, x);
    }
  }

  /** A where call in which the scan finds no user is a clause exactly if it refers to the user in hiding. */
  lemma {:induction false} HiddenReferenceIff(src: Source, query: nat, call: nat)
    requires WellFormed(src) && IsCall(src, query) && IsCall(src, call) && !MentionsUser(src, call)
    ensures RefersToUser(src, query, call) <==> HiddenReference(src, query, call)
  {
    hide WellFormed, NamesUnder, AttributeUnder, RefersUnder, KeywordInLeftUnder;
    var args := src.nodes[call].kind.args;
    forall i | 0 <= i < |args|
      ensures RefersUnder(src, query, args[i]) <==> KeywordInLeftUnder(src, args[i])
    {
      HiddenInArgument(src, query, args[i]);
    }
  }

  /** What contains a text contains each end of it, and so does everything that ends like it. */
  lemma {:induction false} ContainsEnd(s: string, from: nat, part: string, cut: nat)
    requires from <= |s| && Contains(s[from..], part) && cut <= |part|
    ensures Contains(s, part[cut..])
  {
    hide Contains;
    ContainsIff(s[from..], part);
    var k: nat :| OccursAt(s[from..], part, k);
    ContainsIff(s, part[cut..]);
    var at := from + k + cut;
    assert s[from..][k..k + |part|][cut..] == s[at..at + |part[cut..]|];
    assert OccursAt(s, part[cut..], at);
  }

  lemma MarkerEnds()
    ensures DOC_MARKER[2..] == CROSS_USER_MARKER
  {
    assert |"# "| == 2;
  }

  lemma {:induction false} DocstringSeen(src: Source, f: nat)
    requires IsFunction(src, f) && DocstringSays(src, f, DOC_MARKER)
    ensures DocstringSays(src, f, CROSS_USER_MARKER)
  {
    hide Contains;
    var docstring := src.nodes[f].kind.docstring.value;
    MarkerEnds();
    assert docstring[0..] == docstring;
    ContainsEnd(docstring, 0, DOC_MARKER, 2);
  }

  lemma {:induction false} StrippedStart(isSpace: char -> bool, line: string)
    ensures var stripped := LeftStrip(isSpace, line); stripped != "" ==> !isSpace(stripped[0])
  {
    if line == "" || !isSpace(line[0]) {
    } else {
      StrippedStart(isSpace, line[1..]);
    }
  }

  /** A comment on a line that starts with a number sign is part of what is left after stripping. */
  lemma {:induction false} StripKeepsComment(isSpace: char -> bool, line: string, i: nat) returns (k: nat)
    requires i < |line| && line[i] == '#' && "#" <= LeftStrip(isSpace, line)
    ensures k <= |LeftStrip(isSpace, line)| && LeftStrip(isSpace, line)[k..] == line[i..]
  {
    if isSpace(line[0]) {
      StrippedStart(isSpace, line);
      k := StripKeepsComment(isSpace, line[1..], i - 1);
    } else {
      k := i;
    }
  }

  lemma NothingInEmpty()
    ensures !Contains("", DOC_MARKER)
  {
  }

  /** The scan sees every comment with the marker but the trailing ones. */
  lemma {:induction false} CommentSeen(src: Source, i: nat)
    requires WellFormed(src) && CommentSays(src, i) && !TrailingMarker(src, i)
    ensures MarkedComment(src, i)
  {
    hide Contains;
    var line := src.lines[i];
    var stripped := LeftStrip(src.isSpace, line);
    NothingInEmpty();
    assert IsComment(line, src.comments[i]);
    var at: nat :| at < |line| && line[at] == '#' && line[at..] == src.comments[i];
    var k := StripKeepsComment(src.isSpace, line, at);
    MarkerEnds();
    ContainsEnd(stripped, k, DOC_MARKER, 2);
  }

  lemma {:induction false} HiddenClauseIff(src: Source, own: bool, f: nat, query: nat, call: nat)
    requires WellFormed(src) && IsFunction(src, f) && IsCall(src, query) && !HasUserClause(src, f)
    ensures IsClause(src, own, f, query, call) <==> HiddenClause(src, own, f, query, call)
  {
    hide MentionsUser, RefersToUser, HiddenReference, WellFormed;
    if Under(src, f, call) && WhereCall(src, call) {
      assert call in Walk(src, f) && ChainCall(src, call);
      HiddenReferenceIff(src, query, call);
    }
  }

  lemma ClauseIsNode(src: Source, own: bool, f: nat, query: nat, call: nat)
    requires WellFormed(src) && IsCall(src, query)
    ensures IsClause(src, own, f, query, call) ==> call < |src.nodes|
  {
  }

  /** Where the scan sees no excuse the rule is met exactly by what it overlooks. */
  lemma {:induction false} ScopedUnexcusedIff(src: Source, own: bool, f: nat, query: nat)
    requires WellFormed(src) && IsFunction(src, f) && IsCall(src, query) && !Excused(src, f)
    ensures Scoped(src, own, f, query) <==> Overlooked(src, own, f, query)
  {
    hide WellFormed, IsClause, HiddenClause, HasUserClause, HasUserParam, Contains, LeftStrip, Under;
    forall call: nat
      ensures IsClause(src, own, f, query, call) <==> HiddenClause(src, own, f, query, call)
      ensures IsClause(src, own, f, query, call) ==> call < |src.nodes|
    {
      HiddenClauseIff(src, own, f, query, call);
      ClauseIsNode(src, own, f, query, call);
    }
    if DocstringSays(src, f, DOC_MARKER) {
      DocstringSeen(src, f);
    }
    forall i: nat | InLines(src, f, i) && CommentSays(src, i)
      ensures TrailingMarker(src, i)
    {
      if !TrailingMarker(src, i) {
        CommentSeen(src, i);
      }
    }
  }

  lemma {:induction false} ExcusedOrOverlooked(src: Source, own: bool, f: nat, query: nat)
    requires WellFormed(src) && IsFunction(src, f) && IsCall(src, query)
    ensures Scoped(src, own, f, query) ==> (Excused(src, f) <==> !Overlooked(src, own, f, query))
  {
    hide Excused, Scoped, WellFormed, HiddenClause, TrailingMarker;
    if !Excused(src, f) {
      ScopedUnexcusedIff(src, own, f, query);
    }
  }

  /**
   Where the rule is met the scan is clean exactly if it overlooks nothing: if for no query there is
   only a trailing comment or a hidden clause.
   */
  lemma {:induction false} RuleShowsCleanIff(src: Source, own: bool)
    requires WellFormed(src) && RuleMet(src, own)
    ensures ViolationsOf(src) == []
       <==> forall c: nat, f: nat | Query(src, c) && Outermost(src, f) && Under(src, f, c) ::
              !Overlooked(src, own, f, c)
  {
    hide WellFormed, DmlName, Referenced, Matched, TopFunction, Outermost, Under, Excused, Scoped;
    hide Overlooked, ViolationsOf;
    CleanIff(src);
    forall c: nat, f: nat
      ensures TopFunction(src, c) == Some(f) <==> Outermost(src, f) && Under(src, f, c)
    {
      KeptAboveIff(src, c, f);
    }
    forall c: nat, f: nat | Query(src, c) && Outermost(src, f) && Under(src, f, c)
      ensures IsFunction(src, f) && (Scoped(src, own, f, c) ==> (Excused(src, f) <==> !Overlooked(src, own, f, c)))
    {
      OutermostIsFunction(src, f);
      ExcusedOrOverlooked(src, own, f, c);
    }
  }

  // ---------- Inputs ----------

  lemma OnTopOfItself(src: Source, k: nat)
    requires k < |src.nodes|
    ensures Under(src, k, k) && k in Walk(src, k)
  {
  }

  lemma {:induction false} NameIsUnder(src: Source, k: nat)
    requires k < |src.nodes| && src.nodes[k].kind.Name?
    ensures src.nodes[k].kind.id in NamesUnder(src, k)
  {
    OnTopOfItself(src, k);
  }

  lemma {:induction false} SelectsFacts(src: Source, c: nat, i: nat)
    requires WellFormed(src) && IsCall(src, c) && src.nodes[src.nodes[c].kind.func].kind == Name("select")
    requires i < |src.nodes[c].kind.args| && src.nodes[c].kind.args[i] < |src.nodes|
    requires src.nodes[src.nodes[c].kind.args[i]].kind == Name("memory_facts")
    ensures Query(src, c)
  {
    hide NamesUnder;
    NameIsUnder(src, src.nodes[c].kind.args[i]);
    assert "memory_facts" in Referenced(src, c);
  }

  ghost predicate OnlyFunction(src: Source, f: nat) {
    IsFunction(src, f) && forall g: nat | IsFunction(src, g) :: g == f
  }

  lemma {:induction false} OneFunctionTop(src: Source, f: nat, c: nat)
    requires WellFormed(src) && OnlyFunction(src, f)
    ensures TopFunction(src, c) == if Under(src, f, c) then Some(f) else None
  {
    hide Under, TopFunction;
    NoFunctionAbove(src, c);
    if TopFunction(src, c).Some? {
      KeptAboveIff(src, c, TopFunction(src, c).value);
    }
  }

  lemma OnlyIsFunction(src: Source, f: nat)
    requires OnlyFunction(src, f)
    ensures IsFunction(src, f)
  {
  }

  /** The one function of a source is what every query in a function is judged by. */
  lemma {:induction false} OneFunctionClean(src: Source, f: nat, c: nat)
    requires WellFormed(src) && OnlyFunction(src, f)
    ensures Excused(src, f) ==> ViolationsOf(src) == []
    ensures Query(src, c) && Under(src, f, c) && !Excused(src, f) ==> ViolationsOf(src) != []
  {
    hide Excused, Query, Under, TopFunction, ViolationsOf, WellFormed, OnlyFunction;
    CleanIff(src);
    assert IsFunction(src, f) by {
      OnlyIsFunction(src, f);
    }
    forall q: nat
      ensures TopFunction(src, q) == if Under(src, f, q) then Some(f) else None
    {
      OneFunctionTop(src, f, q);
    }
  }

  /** And by what the rule asks of it. */
  lemma {:induction false} OneFunctionRule(src: Source, own: bool, f: nat)
    requires WellFormed(src) && OnlyFunction(src, f)
    ensures RuleMet(src, own) <==> forall c: nat | Query(src, c) :: Under(src, f, c) && Scoped(src, own, f, c)
  {
    hide Scoped, DmlName, Referenced, Matched, Under, TopFunction, WellFormed, OnlyFunction;
    OnlyIsFunction(src, f);
    forall c: nat
      ensures TopFunction(src, c) == if Under(src, f, c) then Some(f) else None
    {
      OneFunctionTop(src, f, c);
    }
  }

  lemma {:induction false} NoFunctionClean(src: Source)
    requires WellFormed(src) && forall g: nat :: !IsFunction(src, g)
    ensures ViolationsOf(src) == []
  {
    AscendingUnique(Kept(src), []);
  }

  /** A source of one line without a comment, with a given tree. */
  ghost predicate OneLine(src: Source, tree: seq<Node>) {
    src.nodes == tree && |src.lines| == 1 && src.comments == [""]
  }

  lemma OneLineUnmarked(src: Source, tree: seq<Node>, f: nat)
    requires OneLine(src, tree) && WellFormed(src) && IsFunction(src, f) && src.nodes[f].kind.docstring == None
    ensures !Marked(src, f)
  {
    NothingInEmpty();
  }

  lemma OnlySecond(src: Source)
    requires |src.nodes| > 1 && src.nodes[1].kind.Function?
    requires forall k | 0 <= k < |src.nodes| && k != 1 :: !src.nodes[k].kind.Function?
    ensures OnlyFunction(src, 1)
  {
  }

  const BARE_TREE := [
    Node(0, 1, Other), Node(0, 1, Call(2, [3], [])), Node(1, 1, Name("select")), Node(1, 1, Name("memory_facts"))]

  const BARE_QUERY := Source(BARE_TREE, ["select(memory_facts)"], [""], c => c == ' ')

  lemma {:induction false} BareQueryFits(src: Source)
    requires OneLine(src, BARE_TREE)
    ensures WellFormed(src) && Query(src, 1) && forall f: nat :: !IsFunction(src, f)
  {
    hide Query;
    assert WellFormed(src) && IsCall(src, 1);
    SelectsFacts(src, 1, 0);
  }

  /** The scan looks at no query outside of all functions. */
  lemma {:induction false} BareQueryPasses(own: bool)
    ensures WellFormed(BARE_QUERY) && Query(BARE_QUERY, 1)
    ensures ViolationsOf(BARE_QUERY) == [] && !RuleMet(BARE_QUERY, own)
  {
    hide Query, Scoped, WellFormed, ViolationsOf, TopFunction, IsFunction;
    BareQueryFits(BARE_QUERY);
    NoFunctionClean(BARE_QUERY);
    NoFunctionAbove(BARE_QUERY, 1);
  }

  const PARAMETER_TREE := [
    Node(0, 1, Other), Node(0, 1, Function("f", ["user_id"], None, Some(1))), Node(1, 1, Call(3, [4], [])),
    Node(2, 1, Name("select")), Node(2, 1, Name("memory_facts"))]

  const PARAMETER_ONLY := Source(PARAMETER_TREE, ["def f(user_id): select(memory_facts)"], [""], c => c == ' ')

  lemma ParameterOnlyFits(src: Source)
    requires OneLine(src, PARAMETER_TREE)
    ensures WellFormed(src) && OnlyFunction(src, 1) && IsCall(src, 2)
    ensures forall c: nat :: !WhereCall(src, c)
  {
    hide IsFunction;
    assert WellFormed(src);
    hide WellFormed;
    OnlySecond(src);
  }

  lemma {:induction false} ParameterOnlyJudged(src: Source, own: bool)
    requires OneLine(src, PARAMETER_TREE)
    ensures WellFormed(src) && IsFunction(src, 1) && Query(src, 2)
    ensures Excused(src, 1) && !Scoped(src, own, 1, 2)
  {
    hide Query, Under, Marked, WhereCall, RefersToUser;
    ParameterOnlyFits(src);
    SelectsFacts(src, 2, 0);
    OnTopOfItself(src, 1);
    assert src.nodes[1].kind.params == [USER_ID];
    assert HasUserParam(src, 1);
    OneLineUnmarked(src, PARAMETER_TREE, 1);
  }

  /** The parameter is never used, and the scan is clean. */
  lemma {:induction false} ParameterOnlyPasses(own: bool)
    ensures WellFormed(PARAMETER_ONLY) && ViolationsOf(PARAMETER_ONLY) == [] && !RuleMet(PARAMETER_ONLY, own)
  {
    hide Query, Scoped, Excused, RuleMet, WellFormed, ViolationsOf, OnlyFunction;
    ParameterOnlyFits(PARAMETER_ONLY);
    ParameterOnlyJudged(PARAMETER_ONLY, own);
    OneFunctionClean(PARAMETER_ONLY, 1, 2);
    OneFunctionRule(PARAMETER_ONLY, own, 1);
  }

  const RIGHT_TREE := [
    Node(0, 1, Other), Node(0, 1, Function("f", [], None, Some(1))), Node(1, 1, Call(3, [4], [])),
    Node(2, 1, Attribute(5, "where")), Node(2, 1, Compare(6)), Node(3, 1, Call(8, [9], [])),
    Node(4, 1, Attribute(10, "id")), Node(4, 1, Name("user_id")), Node(5, 1, Name("select")),
    Node(5, 1, Name("memory_facts")), Node(6, 1, Attribute(11, "c")), Node(10, 1, Name("memory_facts"))]

  const RIGHT_SIDE := Source(
    RIGHT_TREE, ["def f(): select(memory_facts).where(memory_facts.c.id == user_id)"], [""], c => c == ' ')

  lemma RightSideKinds()
    ensures KindsFit(RIGHT_TREE)
  {
  }

  lemma RightSideTree()
    ensures ParentsFit(RIGHT_TREE) && KindsFit(RIGHT_TREE)
  {
    hide KindsFit;
    assert ParentsFit(RIGHT_TREE);
    hide ParentsFit;
    RightSideKinds();
  }

  lemma RightSideFits(src: Source)
    requires OneLine(src, RIGHT_TREE)
    ensures WellFormed(src) && OnlyFunction(src, 1) && IsCall(src, 2) && IsCall(src, 5)
  {
    hide ParentsFit, KindsFit, IsFunction;
    RightSideTree();
    assert WellFormed(src);
    hide WellFormed;
    OnlySecond(src);
  }

  lemma {:induction false} UserNameUnder(src: Source, top: nat, k: nat)
    requires k in Walk(src, top) && src.nodes[k].kind == Name(USER_ID)
    ensures USER_ID in NamesUnder(src, top)
  {
  }

  lemma {:induction false} RightSideMentions(src: Source)
    requires OneLine(src, RIGHT_TREE) && WellFormed(src)
    ensures HasUserClause(src, 1)
  {
    hide Walk, NamesUnder, WellFormed;
    assert Under(src, 4, 7) && Under(src, 1, 2);
    assert 7 in Walk(src, 4) && 2 in Walk(src, 1);
    UserNameUnder(src, 4, 7);
    assert src.nodes[2].kind.args[0] == 4;
    assert MentionsUser(src, 2);
    assert ChainCall(src, 2);
  }

  lemma {:induction false} RightSideRefersNowhere(src: Source, x: nat)
    requires OneLine(src, RIGHT_TREE) && WellFormed(src) && IsCall(src, 5)
    ensures !UserOfTable(src, 5, x) && !LeftMentions(src, x)
  {
    hide Walk, WellFormed, Referenced, Matched;
    assert src.nodes[7].parent == 4 && src.nodes[4].parent == 2;
    assert !Under(src, 6, 7);
    assert forall y | y in Walk(src, 6) :: y != 7;
    assert forall y | y in Walk(src, 6) :: !IsToken(src, y);
  }

  lemma {:induction false} RightSideNoClause(src: Source, own: bool, call: nat)
    requires OneLine(src, RIGHT_TREE) && WellFormed(src) && IsCall(src, 5)
    ensures !IsClause(src, own, 1, 5, call)
  {
    hide Under, Walk, UserOfTable, LeftMentions, WellFormed;
    forall x: nat
      ensures !UserOfTable(src, 5, x) && !LeftMentions(src, x)
    {
      RightSideRefersNowhere(src, x);
    }
    assert forall top: nat :: !RefersUnder(src, 5, top);
    hide RefersUnder;
    assert WhereCall(src, call) ==> call == 2;
  }

  lemma {:induction false} RightSideJudged(src: Source, own: bool)
    requires OneLine(src, RIGHT_TREE)
    ensures WellFormed(src) && IsFunction(src, 1) && Query(src, 5)
    ensures Excused(src, 1) && !Scoped(src, own, 1, 5)
  {
    hide DmlName, Referenced, Matched, Marked, IsClause, HasUserClause, HasUserParam, Annotated, WellFormed;
    RightSideFits(src);
    RightSideMentions(src);
    SelectsFacts(src, 5, 0);
    OneLineUnmarked(src, RIGHT_TREE, 1);
    forall call: nat
      ensures !IsClause(src, own, 1, 5, call)
    {
      RightSideNoClause(src, own, call);
    }
  }

  /** The user on the right of a comparison with some other column is a mention, and no clause. */
  lemma {:induction false} RightSidePasses(own: bool)
    ensures WellFormed(RIGHT_SIDE) && ViolationsOf(RIGHT_SIDE) == [] && !RuleMet(RIGHT_SIDE, own)
  {
    hide Query, Scoped, Excused, RuleMet, WellFormed, ViolationsOf, OnlyFunction;
    RightSideFits(RIGHT_SIDE);
    RightSideJudged(RIGHT_SIDE, own);
    OneFunctionClean(RIGHT_SIDE, 1, 5);
    OneFunctionRule(RIGHT_SIDE, own, 1);
  }

  const SHARED_TREE := [
    Node(0, 1, Other), Node(0, 1, Function("f", [], None, Some(1))),
    Node(1, 1, Call(4, [5], [])), Node(1, 1, Call(6, [], [Keyword(Some("user_id"), 7)])),
    Node(2, 1, Name("select")), Node(2, 1, Name("memory_facts")),
    Node(3, 1, Attribute(8, "where")), Node(3, 1, Other),
    Node(6, 1, Call(9, [10], [])), Node(8, 1, Name("select")), Node(8, 1, Name("memory_facts"))]

  const SHARED_CLAUSE := Source(
    SHARED_TREE, ["def f(): (select(memory_facts), select(memory_facts).where(user_id=1))"], [""], c => c == ' ')

  lemma SharedClauseKinds()
    ensures KindsFit(SHARED_TREE)
  {
  }

  lemma SharedClauseTree()
    ensures ParentsFit(SHARED_TREE) && KindsFit(SHARED_TREE)
  {
    hide KindsFit;
    assert ParentsFit(SHARED_TREE);
    hide ParentsFit;
    SharedClauseKinds();
  }

  lemma SharedClauseUnder(src: Source)
    requires OneLine(src, SHARED_TREE)
    ensures Under(src, 1, 2) && Under(src, 1, 3) && Under(src, 1, 8) && !Under(src, 6, 2)
  {
    assert src.nodes[2].parent == 1 && src.nodes[1].parent == 0;
    assert Under(src, 1, 6);
  }

  lemma SharedClauseFits(src: Source)
    requires OneLine(src, SHARED_TREE)
    ensures WellFormed(src) && OnlyFunction(src, 1) && IsCall(src, 2) && IsCall(src, 3)
    ensures forall c: nat | IsCall(src, c) :: Under(src, 1, c)
    ensures forall c: nat | WhereCall(src, c) :: c == 3
  {
    hide Under, IsFunction, ParentsFit, KindsFit;
    SharedClauseTree();
    assert WellFormed(src);
    hide WellFormed;
    OnlySecond(src);
    assert forall c: nat | IsCall(src, c) :: c == 2 || c == 3 || c == 8;
    SharedClauseUnder(src);
  }

  lemma {:induction false} SharedClauseHelps(src: Source, query: nat)
    requires OneLine(src, SHARED_TREE) && WellFormed(src) && IsFunction(src, 1) && IsCall(src, query)
    ensures HasUserClause(src, 1) && Scoped(src, false, 1, query)
  {
    hide Walk, NamesUnder, WellFormed, Under, AttributeUnder, RefersUnder, Marked;
    SharedClauseUnder(src);
    assert src.nodes[3].kind.keywords[0].arg == Some(USER_ID);
    assert 3 in Walk(src, 1) && ChainCall(src, 3) && MentionsUser(src, 3);
    assert IsClause(src, false, 1, query, 3);
  }

  lemma {:induction false} SharedClauseIsElsewhere(src: Source)
    requires OneLine(src, SHARED_TREE) && WellFormed(src) && IsFunction(src, 1) && IsCall(src, 2)
    ensures !Scoped(src, true, 1, 2)
  {
    hide RefersToUser, Marked, WellFormed, Under, WhereCall;
    SharedClauseFits(src);
    SharedClauseUnder(src);
    OneLineUnmarked(src, SHARED_TREE, 1);
  }

  lemma {:induction false} SharedClauseJudged(src: Source)
    requires OneLine(src, SHARED_TREE)
    ensures WellFormed(src) && IsFunction(src, 1) && Query(src, 2) && Excused(src, 1) && !Scoped(src, true, 1, 2)
    ensures forall c: nat | Query(src, c) :: Under(src, 1, c) && Scoped(src, false, 1, c)
  {
    hide DmlName, Referenced, Matched, Scoped, WellFormed, Under, HasUserClause;
    SharedClauseFits(src);
    SelectsFacts(src, 2, 0);
    SharedClauseIsElsewhere(src);
    SharedClauseHelps(src, 2);
    forall c: nat | IsCall(src, c)
      ensures Scoped(src, false, 1, c)
    {
      SharedClauseHelps(src, c);
    }
  }

  /** The clause of one query excuses the other, which has none on its own chain. */
  lemma {:induction false} SharedClausePasses()
    ensures WellFormed(SHARED_CLAUSE) && ViolationsOf(SHARED_CLAUSE) == []
    ensures RuleMet(SHARED_CLAUSE, false) && !RuleMet(SHARED_CLAUSE, true)
  {
    hide Query, Excused, Scoped, RuleMet, Under, WellFormed, ViolationsOf, OnlyFunction;
    SharedClauseFits(SHARED_CLAUSE);
    SharedClauseJudged(SHARED_CLAUSE);
    OneFunctionClean(SHARED_CLAUSE, 1, 2);
    OneFunctionRule(SHARED_CLAUSE, false, 1);
    OneFunctionRule(SHARED_CLAUSE, true, 1);
  }

  const TRAILING_TREE := [
    Node(0, 1, Other), Node(0, 1, Function("f", [], None, Some(2))), Node(1, 2, Other), Node(2, 2, Name("q")),
    Node(2, 2, Call(5, [6], [])), Node(4, 2, Name("select")), Node(4, 2, Name("memory_facts"))]

  const INDENT := "    "

  const CODE := "q = select(memory_facts)  "

  const TRAILING_COMMENT := Source(
    TRAILING_TREE, ["def f():", INDENT + CODE + DOC_MARKER], ["", DOC_MARKER], c => c == ' ')

  /** The second line is code with the marker behind it, and the first is no comment. */
  ghost predicate TrailingLines(src: Source, code: string) {
    && src.nodes == TRAILING_TREE && src.comments == ["", DOC_MARKER]
    && |src.lines| == 2 && src.lines[1] == code + DOC_MARKER
    && !MarkedComment(src, 0) && !MarkedComment(src, 1)
  }

  lemma TrailingTree()
    ensures ParentsFit(TRAILING_TREE) && KindsFit(TRAILING_TREE)
  {
  }

  lemma BehindCode(code: string, comment: string)
    requires comment != "" && comment[0] == '#'
    ensures IsComment(code + comment, comment)
  {
    var line := code + comment;
    assert line[|code|] == '#' && line[|code|..] == comment;
  }

  lemma {:induction false} TrailingCommentFits(src: Source, code: string)
    requires TrailingLines(src, code)
    ensures WellFormed(src) && OnlyFunction(src, 1)
  {
    hide ParentsFit, KindsFit, MarkedComment, IsFunction;
    TrailingTree();
    BehindCode(code, DOC_MARKER);
    assert IsComment(src.lines[0], src.comments[0]);
    OnlySecond(src);
  }

  lemma {:induction false} TrailingCommentCalls(src: Source, code: string)
    requires TrailingLines(src, code) && WellFormed(src)
    ensures IsCall(src, 4) && Under(src, 1, 4)
    ensures forall c: nat | IsCall(src, c) :: c == 4
    ensures !IsAttribute(src, 5, "where") && !IsAttribute(src, 5, "values")
  {
    hide MarkedComment, WellFormed;
  }

  lemma {:induction false} TrailingCommentJudged(src: Source, code: string, own: bool)
    requires TrailingLines(src, code)
    ensures WellFormed(src) && IsFunction(src, 1) && Query(src, 4) && Under(src, 1, 4) && !Excused(src, 1)
    ensures forall c: nat | Query(src, c) :: Under(src, 1, c) && Scoped(src, own, 1, c)
  {
    hide DmlName, Referenced, Matched, LeftStrip, MentionsUser, Under, HasClause, WellFormed;
    TrailingCommentFits(src, code);
    TrailingCommentCalls(src, code);
    SelectsFacts(src, 4, 0);
    assert forall c: nat :: !ChainCall(src, c);
    assert CommentSays(src, 1) && InLines(src, 1, 1);
    assert Marked(src, 1);
  }

  lemma {:induction false} Stripped(isSpace: char -> bool, s: string, n: nat)
    requires n < |s| && !isSpace(s[n]) && forall i | 0 <= i < n :: isSpace(s[i])
    ensures LeftStrip(isSpace, s) == s[n..]
  {
    if n == 0 {
    } else {
      Stripped(isSpace, s[1..], n - 1);
    }
  }

  lemma {:induction false} TrailingCommentUnseen()
    ensures TrailingLines(TRAILING_COMMENT, INDENT + CODE)
  {
    hide Contains, LeftStrip;
    var src := TRAILING_COMMENT;
    assert src.lines[0][0] == 'd' && src.lines[1][4] == 'q';
    assert forall i | 0 <= i < 4 :: src.lines[1][i] == ' ';
    Stripped(src.isSpace, src.lines[0], 0);
    Stripped(src.isSpace, src.lines[1], 4);
  }

  /** The marker behind the query meets the rule, and the scan reports the query. */
  lemma {:induction false} TrailingCommentReported(own: bool)
    ensures WellFormed(TRAILING_COMMENT) && ViolationsOf(TRAILING_COMMENT) != [] && RuleMet(TRAILING_COMMENT, own)
  {
    hide Query, Excused, Scoped, RuleMet, Under, WellFormed, ViolationsOf, OnlyFunction, TrailingLines;
    TrailingCommentUnseen();
    TrailingCommentFits(TRAILING_COMMENT, INDENT + CODE);
    TrailingCommentJudged(TRAILING_COMMENT, INDENT + CODE, own);
    OneFunctionClean(TRAILING_COMMENT, 1, 4);
    OneFunctionRule(TRAILING_COMMENT, own, 1);
  }
}
