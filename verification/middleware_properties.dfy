/**
 Properties of the middleware edit planner: what each line rewrite produces
 for the shapes it recognises, where the inserted lines go and how deep they
 are indented, which companion files are written, and how the steps of one
 invocation relate to each other.
 */
module MiddlewareProperties {
  import opened Wrappers
  import opened StringOps
  import opened Editor
  import opened Middleware

  // ---------------------------------------------------------------------------
  // Captured argument lists
  // ---------------------------------------------------------------------------

  /**
   A captured object `{ body }` gets the middleware added as its last entry:
   the entries already there keep their text and their order.
   */
  lemma ExtendCaptureAppends(body: string, sp: string, middleware: string)
    requires '}' !in body
    requires |body| == 0 || body[|body| - 1] != ' '
    requires AllSpaces(sp)
    ensures ExtendCapture("{" + body + sp + "}", middleware) == "{" + body + ", " + middleware + " }"
  {
    var a := "{" + body;
    assert '}' !in a by {
      assert forall c :: c in a ==> c == '{' || c in body;
    }
    assert |a| == 0 || a[|a| - 1] != ' ';
    var rep := ", " + middleware + " }";
    ReplaceSpacedBracesSplit(a, sp, "", rep);
    assert a + sp + "}" + "" == "{" + body + sp + "}";
    ReplaceSpacedBracesNoBrace("", rep);
    assert a + rep + "" == "{" + body + ", " + middleware + " }";
  }

  /**
   Only the leftmost occurrence of the capture in the line is rewritten: the
   text before it and the text after it are kept.
   */
  lemma AppendToCaptureAt(text: string, group: string, middleware: string, i: nat)
    requires FirstOccurrence(text, group, i)
    ensures AppendToCapture(text, group, middleware)
         == text[..i] + ExtendCapture(group, middleware) + text[i + |group|..]
  {
    ReplaceFirstAt(text, group, ExtendCapture(group, middleware), i);
  }

  /** A line `pre + "{" + body + sp + "}" + post` whose `pre` has no `{` has its object extended in place. */
  lemma AppendToCaptureInLine(pre: string, body: string, sp: string, post: string, middleware: string)
    requires '{' !in pre
    requires '}' !in body
    requires |body| == 0 || body[|body| - 1] != ' '
    requires AllSpaces(sp)
    ensures AppendToCapture(pre + "{" + body + sp + "}" + post, "{" + body + sp + "}", middleware)
         == pre + "{" + body + ", " + middleware + " }" + post
  {
    var group := "{" + body + sp + "}";
    var text := pre + group + post;
    assert text == pre + "{" + body + sp + "}" + post;
    assert text[|pre|..|pre| + |group|] == group;
    forall j: nat | j < |pre|
      ensures !OccursAt(text, group, j)
    {
      assert text[j] == pre[j];
      assert pre[j] in pre;
      assert text[j] != group[0];
    }
    assert FirstOccurrence(text, group, |pre|);
    AppendToCaptureAt(text, group, middleware, |pre|);
    assert text[..|pre|] == pre;
    assert text[|pre| + |group|..] == post;
    ExtendCaptureAppends(body, sp, middleware);
  }

  // ---------------------------------------------------------------------------
  // Indentation of inserted lines
  // ---------------------------------------------------------------------------

  /** The inserted indentation holds exactly one more indentation unit than the anchor line. */
  lemma IndentationOneDeeper(tab: string, text: string)
    requires |tab| > 0
    ensures CountMatches(Indentation(tab, text), tab) == CountMatches(text, tab) + 1
  {
    var n := CountMatches(text, tab) + 1;
    CountMatchesRepeat(tab, n, "");
    assert Repeat(tab, n) + "" == Repeat(tab, n);
    assert CountMatches("", tab) == 0;
  }

  /**
   For a line indented by `k` units whose remaining text holds no unit, the
   inserted line is indented by `k + 1` units.
   */
  lemma IndentationOfIndentedLine(tab: string, k: nat, body: string)
    requires |tab| > 0
    requires Absent(body, tab)
    ensures Indentation(tab, Repeat(tab, k) + body) == Repeat(tab, k + 1)
  {
    CountMatchesRepeat(tab, k, body);
    CountMatchesAbsent(body, tab);
  }

  // ---------------------------------------------------------------------------
  // The factory-creation step
  // ---------------------------------------------------------------------------

  /** Existing arguments: the line is replaced, with the middleware added inside the captured object only. */
  lemma CreateWithArgumentsEdit(req: Request, p: Patterns, line: Line, group: string, i: nat)
    requires p.createLine(line.text) == Matched(group) && group != ""
    requires FirstOccurrence(line.text, group, i)
    ensures CreateEdits(req, p, line)[0]
         == Replace(line.range, line.text[..i] + ExtendCapture(group, req.middleware) + line.text[i + |group|..])
  {
    AppendToCaptureAt(line.text, group, req.middleware, i);
  }

  /** `c` added to the capture `{ a, b }` of `create({ a, b })` gives `create({ a, b, c })`. */
  lemma AppendToCaptureExample()
    ensures AppendToCapture("create({ a, b })", "{ a, b }", "c") == "create({ a, b, c })"
  {
    assert "create(" + "{" + " a, b" + " " + "}" + ")" == "create({ a, b })";
    assert "{" + " a, b" + " " + "}" == "{ a, b }";
    assert '{' !in "create(";
    assert '}' !in " a, b";
    assert AllSpaces(" ");
    AppendToCaptureInLine("create(", " a, b", " ", ")", "c");
    assert "create(" + "{" + " a, b" + ", " + "c" + " }" + ")" == "create({ a, b, c })";
  }

  /** `create({ a, b })` with `c` added becomes `create({ a, b, c })`. */
  lemma CreateWithArgumentsExample(req: Request, p: Patterns, line: Line)
    requires req.middleware == "c"
    requires line.text == "create({ a, b })"
    requires p.createLine(line.text) == Matched("{ a, b }")
    ensures CreateEdits(req, p, line)[0] == Replace(line.range, "create({ a, b, c })")
  {
    AppendToCaptureExample();
  }

  /**
   A `create(` line standing alone gets no rewrite: the middleware goes on a
   new line after it, one indentation unit deeper than the line.
   */
  lemma CreateAloneEdit(req: Request, p: Patterns, line: Line, k: nat, body: string)
    requires p.createLine(line.text) == Matched("") && p.createAloneLine(line.text)
    requires |req.tab| > 0
    requires line.text == Repeat(req.tab, k) + body && Absent(body, req.tab)
    ensures CreateEdits(req, p, line)[0]
         == Insert(line.rangeIncludingLineBreak.end, Repeat(req.tab, k + 1) + req.middleware + ",\r\n")
    ensures forall e :: e in CreateEdits(req, p, line) ==> e.Insert?
  {
    IndentationOfIndentedLine(req.tab, k, body);
  }

  /** An empty `create()` becomes `create({ <middleware> })`; the rest of the line is kept. */
  lemma CreateEmptyEdit(req: Request, p: Patterns, line: Line, pre: string, post: string)
    requires p.createLine(line.text) == Matched("") && !p.createAloneLine(line.text)
    requires line.text == pre + "create()" + post
    requires forall j: nat :: j < |pre| ==> !OccursAt(line.text, "create()", j)
    ensures CreateEdits(req, p, line)[0]
         == Replace(line.range, pre + "create({ " + req.middleware + " })" + post)
  {
    ReplaceFirstSplit(pre, "create()", post, "create({ " + req.middleware + " })");
  }

  /**
   A matched line with an empty capture, not standing alone and holding no
   literal `create()` (as in `create( )`), is written back as it is.
   */
  lemma CreateEmptyNoLiteralEdit(req: Request, p: Patterns, line: Line)
    requires p.createLine(line.text) == Matched("") && !p.createAloneLine(line.text)
    requires Absent(line.text, "create()")
    ensures CreateEdits(req, p, line)[0] == Replace(line.range, line.text)
  {
    ReplaceFirstAbsent(line.text, "create()", "create({ " + req.middleware + " })");
  }

  /**
   A line the create pattern no longer matches is written back as it is:
   the middleware is not listed, though the edit still counts as one.
   */
  lemma CreateUnmatchedEdit(req: Request, p: Patterns, line: Line)
    requires p.createLine(line.text) == NoMatch
    ensures CreateEdits(req, p, line)[0] == Replace(line.range, line.text)
  {
  }

  // ---------------------------------------------------------------------------
  // The companion-asset step
  // ---------------------------------------------------------------------------

  /** The names of the files a plan writes. */
  function WrittenNames(writes: seq<FileWrite>): (names: set<string>)
    ensures forall w :: w in writes ==> w.name in names
    ensures forall n :: n in names ==> exists w :: w in writes && w.name == n
  {
    set w | w in writes :: w.name
  }

  /** The files each middleware with assets needs beside the edited module. */
  function CompanionFiles(middleware: string, fileName: string): set<string> {
    if middleware == "theme" then {fileName + ".m.css", fileName + ".m.css.d.ts"}
    else if middleware == "i18n" then {fileName + ".nls.ts"}
    else {}
  }

  /**
   After the writes, every companion file exists, and exactly the missing ones
   were written, with the fixed contents of their kind.
   */
  lemma CompanionFilesProvided(req: Request, lastImport: Option<Line>)
    requires lastImport.Some?
    ensures WrittenNames(CompanionPlan(req, lastImport).writes)
         == CompanionFiles(req.middleware, req.fileName) - req.existing
    ensures forall w :: w in CompanionPlan(req, lastImport).writes ==>
              (w.name == req.fileName + ".m.css" ==> w.contents == ".root {\r\n\r\n}\r\n")
              && (w.name == req.fileName + ".m.css.d.ts" ==> w.contents == "export const root: string;\r\n")
              && (w.name == req.fileName + ".nls.ts" ==> w.contents == "const messages = {\r\n\r\n};\r\n\r\nexport default { messages };\r\n")
  {
  }

  /**
   The command as a whole, once an import line exists, writes exactly the
   companion files that were missing, each with the fixed contents of its kind.
   */
  lemma CommandWritesMissingCompanions(req: Request, p: Patterns, a: Anchors)
    requires a.lastImport.Some?
    ensures WrittenNames(AddMiddleware(req, p, a).writes)
         == CompanionFiles(req.middleware, req.fileName) - req.existing
    ensures forall w :: w in AddMiddleware(req, p, a).writes ==>
              (w.name == req.fileName + ".m.css" ==> w.contents == CssContents)
              && (w.name == req.fileName + ".m.css.d.ts" ==> w.contents == CssDefinitionContents)
              && (w.name == req.fileName + ".nls.ts" ==> w.contents == BundleContents)
  {
    CompanionFilesProvided(req, a.lastImport);
  }

  /**
   Invoking the step again once its files exist writes nothing more, but
   stages the same import again: the import is not guarded against repeats.
   */
  lemma CompanionRerun(req: Request, lastImport: Option<Line>)
    ensures var first := CompanionPlan(req, lastImport);
            var again := CompanionPlan(req.(existing := req.existing + WrittenNames(first.writes)), lastImport);
            again.writes == [] && again.edits == first.edits
  {
  }

  // ---------------------------------------------------------------------------
  // The widget-factory step
  // ---------------------------------------------------------------------------

  /** A line as the editor reports it: its extents sit on its own line number. */
  predicate WellFormedLine(l: Line) {
    && l.range == Range(Position(l.lineNumber, 0), Position(l.lineNumber, |l.text|))
    && l.rangeIncludingLineBreak.start == l.range.start
    && (l.rangeIncludingLineBreak.end == Position(l.lineNumber + 1, 0)
        || l.rangeIncludingLineBreak.end == l.range.end)
  }

  /**
   When the widget factory's arguments sit on a later line than its start,
   every edit of the widget step lies below the start line: the start line
   is never rewritten and nothing is inserted into it.
   */
  lemma WidgetStartLineUntouched(req: Request, p: Patterns, start: Line, bounded: Line)
    requires WellFormedLine(start) && WellFormedLine(bounded)
    requires !p.widgetFactoryEnd(start.text)
    requires bounded.lineNumber > start.lineNumber
    ensures WidgetAnchor(p, start, Some(bounded)) == bounded
    ensures forall e :: e in WidgetEdits(req, p, bounded) ==>
              if e.Insert? then e.at.line > start.lineNumber else e.range.start.line > start.lineNumber
  {
  }

  /** Existing middleware: the line is replaced, with the middleware added inside the captured object only. */
  lemma WidgetWithMiddlewareEdit(req: Request, p: Patterns, anchor: Line, group: string, i: nat)
    requires p.widgetFactoryReplace(anchor.text) == Matched(group) && group != ""
    requires FirstOccurrence(anchor.text, group, i)
    ensures WidgetEdits(req, p, anchor)[0]
         == Replace(anchor.range, anchor.text[..i] + ExtendCapture(group, req.middleware) + anchor.text[i + |group|..])
  {
    AppendToCaptureAt(anchor.text, group, req.middleware, i);
  }

  /**
   A middleware object opening alone on the anchor line gets no rewrite: the
   middleware goes on a new line after it, one indentation unit deeper.
   */
  lemma WidgetAloneEdit(req: Request, p: Patterns, anchor: Line, k: nat, body: string)
    requires p.widgetFactoryReplace(anchor.text) == Matched("") && p.widgetFactoryMiddlewareAlone(anchor.text)
    requires |req.tab| > 0
    requires anchor.text == Repeat(req.tab, k) + body && Absent(body, req.tab)
    ensures WidgetEdits(req, p, anchor)[0]
         == Insert(anchor.rangeIncludingLineBreak.end, Repeat(req.tab, k + 1) + req.middleware + ",\r\n")
    ensures forall e :: e in WidgetEdits(req, p, anchor) ==> e.Insert?
  {
    IndentationOfIndentedLine(req.tab, k, body);
  }

  /**
   A matched factory call with no captured middleware and no object opening
   alone on the line is written back as it is.
   */
  lemma WidgetMatchedOtherEdit(req: Request, p: Patterns, anchor: Line)
    requires p.widgetFactoryReplace(anchor.text) == Matched("") && !p.widgetFactoryMiddlewareAlone(anchor.text)
    ensures WidgetEdits(req, p, anchor)[0] == Replace(anchor.range, anchor.text)
  {
  }

  /**
   A factory call whose argument object closes on the anchor line without a
   middleware block gets one, `, middleware: { <middleware> } })`, in place of
   its `} )`; the text before is kept.
   */
  lemma WidgetCallCloseEdit(req: Request, p: Patterns, anchor: Line, a: string, sp1: string, sp2: string, b: string)
    requires p.widgetFactoryReplace(anchor.text) == NoMatch
    requires anchor.text == a + sp1 + "}" + sp2 + ")" + b
    requires !HasCallClose(a) && (|a| == 0 || a[|a| - 1] != ' ')
    requires AllSpaces(sp1) && AllSpaces(sp2)
    ensures WidgetEdits(req, p, anchor)[0]
         == Replace(anchor.range, a + ", middleware: { " + req.middleware + " } })"
                                  + ReplaceCallCloses(b, ", middleware: { " + req.middleware + " } })"))
    ensures !HasCallClose(b) ==>
              WidgetEdits(req, p, anchor)[0]
              == Replace(anchor.range, a + ", middleware: { " + req.middleware + " } })" + b)
  {
    var rep := ", middleware: { " + req.middleware + " } })";
    HasCallCloseOf(a, sp1, sp2, b);
    WidgetCallCloseRewrite(req, p, anchor);
    ReplaceCallClosesSplit(a, sp1, sp2, b, rep);
    if !HasCallClose(b) {
      ReplaceCallClosesNone(b, rep);
    }
  }

  /** The call-close branch rewrites the whole anchor line with the global replacement. */
  lemma WidgetCallCloseRewrite(req: Request, p: Patterns, anchor: Line)
    requires p.widgetFactoryReplace(anchor.text) == NoMatch
    requires HasCallClose(anchor.text)
    ensures WidgetEdits(req, p, anchor)[0]
         == Replace(anchor.range, ReplaceCallCloses(anchor.text, ", middleware: { " + req.middleware + " } })"))
  {
  }

  /** With neither a match nor a `} )`, the first `()` becomes `({ middleware: { <middleware> } })`. */
  lemma WidgetEmptyCallEdit(req: Request, p: Patterns, anchor: Line, pre: string, post: string)
    requires p.widgetFactoryReplace(anchor.text) == NoMatch
    requires !HasCallClose(anchor.text)
    requires anchor.text == pre + "()" + post
    requires forall j: nat :: j < |pre| ==> !OccursAt(anchor.text, "()", j)
    ensures WidgetEdits(req, p, anchor)[0]
         == Replace(anchor.range, pre + "({ middleware: { " + req.middleware + " } })" + post)
  {
    ReplaceFirstSplit(pre, "()", post, "({ middleware: { " + req.middleware + " } })");
  }

  /**
   With neither a match, nor a `} )`, nor a `()` (as on the first line of a
   call whose arguments open with `({`), the anchor line is written back as it is.
   */
  lemma WidgetEmptyCallNoParensEdit(req: Request, p: Patterns, anchor: Line)
    requires p.widgetFactoryReplace(anchor.text) == NoMatch
    requires !HasCallClose(anchor.text)
    requires Absent(anchor.text, "()")
    ensures WidgetEdits(req, p, anchor)[0] == Replace(anchor.range, anchor.text)
  {
    ReplaceFirstAbsent(anchor.text, "()", "({ middleware: { " + req.middleware + " } })");
  }

  // ---------------------------------------------------------------------------
  // The whole command
  // ---------------------------------------------------------------------------

  /**
   An empty `create()` and a vdom import: the plan starts with the import of
   the middleware and the rewrite of the call to `create({ <middleware> })`.
   */
  lemma EmptyCreateScenario(req: Request, p: Patterns, a: Anchors, pre: string, post: string)
    requires req.middleware != "store"
    requires a.vdomImport.Some? && a.createLine.Some?
    requires p.createLine(a.createLine.value.text) == Matched("")
    requires !p.createAloneLine(a.createLine.value.text)
    requires a.createLine.value.text == pre + "create()" + post
    requires forall j: nat :: j < |pre| ==> !OccursAt(a.createLine.value.text, "create()", j)
    ensures AddMiddleware(req, p, a).edits[0]
         == Insert(a.vdomImport.value.rangeIncludingLineBreak.end,
                   "import " + req.middleware + " from '@dojo/framework/core/middleware/" + req.middleware + "';\r\n")
    ensures AddMiddleware(req, p, a).edits[1]
         == Replace(a.createLine.value.range, pre + "create({ " + req.middleware + " })" + post)
  {
    CreateEmptyEdit(req, p, a.createLine.value, pre, post);
  }

  /**
   For `store`, the import names `createStoreMiddleware`, and the store is
   declared on its own line just before the `create(...)` line, right after
   the edit that rewrites or extends that call.
   */
  lemma StoreScenario(req: Request, p: Patterns, a: Anchors)
    requires req.middleware == "store"
    ensures a.vdomImport.Some? ==>
              AddMiddleware(req, p, a).edits[0]
              == Insert(a.vdomImport.value.rangeIncludingLineBreak.end,
                        "import " + "createStoreMiddleware" + " from '@dojo/framework/core/middleware/" + "store" + "';\r\n")
    ensures a.createLine.Some? ==>
              var i := if a.vdomImport.Some? then 2 else 1;
              AddMiddleware(req, p, a).edits[i]
              == Insert(a.createLine.value.range.start, StoreLine)
  {
  }

  /** The plan's edits are the edits of the four steps, in order. */
  lemma PlanSteps(req: Request, p: Patterns, a: Anchors)
    ensures AddMiddleware(req, p, a).edits
         == ImportEdits(req.middleware, a.vdomImport)
            + (if a.createLine.Some? then CreateEdits(req, p, a.createLine.value) else [])
            + CompanionPlan(req, a.lastImport).edits
            + (if a.widgetFactoryStart.Some?
               then WidgetEdits(req, p, WidgetAnchor(p, a.widgetFactoryStart.value, a.widgetFactoryBounded))
               else [])
  {
  }

  /**
   The steps are independent: the plan for a module with a `create(...)` line
   is the plan without it, with that line's edits placed right after the import.
   */
  lemma CreateStepIndependent(req: Request, p: Patterns, a: Anchors)
    requires a.createLine.Some?
    ensures var k := |ImportEdits(req.middleware, a.vdomImport)|;
            var without := AddMiddleware(req, p, a.(createLine := None)).edits;
            AddMiddleware(req, p, a).edits == without[..k] + CreateEdits(req, p, a.createLine.value) + without[k..]
  {
    var widgetEdits :=
      if a.widgetFactoryStart.Some?
      then WidgetEdits(req, p, WidgetAnchor(p, a.widgetFactoryStart.value, a.widgetFactoryBounded))
      else [];
    PlanSteps(req, p, a);
    PlanSteps(req, p, a.(createLine := None));
    SpliceStep(ImportEdits(req.middleware, a.vdomImport), CreateEdits(req, p, a.createLine.value),
               CompanionPlan(req, a.lastImport).edits, widgetEdits);
  }

  /** Placing `middle` after `front` in a plan whose steps are `front`, nothing, `x` and `y`. */
  lemma SpliceStep<T>(front: seq<T>, middle: seq<T>, x: seq<T>, y: seq<T>)
    ensures var without := front + [] + x + y;
            front + middle + x + y == without[..|front|] + middle + without[|front|..]
  {
  }

  /**
   `theme` and `i18n` end the plan with their follow-up line after the widget
   factory's anchor; any other middleware ends it with the anchor's own edit.
   */
  lemma FollowUpScenario(req: Request, p: Patterns, a: Anchors)
    requires a.widgetFactoryStart.Some?
    ensures var edits := AddMiddleware(req, p, a).edits;
            var anchor := WidgetAnchor(p, a.widgetFactoryStart.value, a.widgetFactoryBounded);
            && |edits| > 0
            && (req.middleware == "theme" ==>
                  edits[|edits| - 1] == Insert(anchor.rangeIncludingLineBreak.end,
                                               req.tab + "const themedCss = theme.classes(css);\r\n"))
            && (req.middleware == "i18n" ==>
                  edits[|edits| - 1] == Insert(anchor.rangeIncludingLineBreak.end,
                                               req.tab + "const { messages } = i18n.localize(bundle);\r\n"))
            && (!HasCompanion(req.middleware) ==> edits[|edits| - 1] == WidgetEdits(req, p, anchor)[0])
  {
  }

  // ---------------------------------------------------------------------------
  // The edit batch as a whole
  // ---------------------------------------------------------------------------

  /** Lines as the editor reports them: well formed, and told apart by their numbers. */
  predicate DistinctLines(lines: set<Line>) {
    && (forall l :: l in lines ==> WellFormedLine(l))
    && (forall l, m :: l in lines && m in lines && l.lineNumber == m.lineNumber ==> l == m)
  }

  /** Edits addressed at well-formed lines overlap only when both replace the same line. */
  lemma TargetedEditsApart(x: Edit, y: Edit, l: Line, m: Line)
    requires WellFormedLine(l) && WellFormedLine(m)
    requires l.lineNumber == m.lineNumber ==> l == m
    requires Targets(x, l) && Targets(y, m)
    requires !(x.Replace? && y.Replace? && x.range == y.range)
    ensures !Overlap(x, y)
  {
  }

  /**
   In a batch made of insertions, a step whose only replacement comes first,
   more insertions and another such step, a replacement is one of the two
   steps' first edits.
   */
  lemma ReplaceIndices(front: seq<Edit>, c: seq<Edit>, k: seq<Edit>, w: seq<Edit>, i: nat)
    requires forall e :: e in front ==> e.Insert?
    requires forall e :: e in k ==> e.Insert?
    requires forall n :: 0 < n < |c| ==> c[n].Insert?
    requires forall n :: 0 < n < |w| ==> w[n].Insert?
    requires i < |front + c + k + w|
    ensures (front + c + k + w)[i].Replace? ==>
              (0 < |c| && i == |front| && (front + c + k + w)[i] == c[0])
              || (0 < |w| && i == |front| + |c| + |k| && (front + c + k + w)[i] == w[0])
  {
    var all := front + c + k + w;
    if i < |front| {
      assert all[i] == front[i] && front[i] in front;
    } else if i < |front| + |c| {
      assert all[i] == c[i - |front|];
    } else if i < |front| + |c| + |k| {
      assert all[i] == k[i - |front| - |c|] && k[i - |front| - |c|] in k;
    } else {
      assert all[i] == w[i - |front| - |c| - |k|];
    }
  }

  /**
   With well-formed, distinct found lines and the create line apart from the
   widget factory's anchor line, no two edits of the batch overlap.
   */
  lemma PlanNonOverlapping(req: Request, p: Patterns, a: Anchors)
    requires DistinctLines(FoundLines(a))
    requires a.createLine.Some? && a.widgetFactoryStart.Some? ==>
               a.createLine.value.lineNumber
               != WidgetAnchor(p, a.widgetFactoryStart.value, a.widgetFactoryBounded).lineNumber
    ensures NonOverlapping(AddMiddleware(req, p, a).edits)
  {
    var lines := FoundLines(a);
    var edits := AddMiddleware(req, p, a).edits;
    PlanReplacesApart(req, p, a);
    forall i, j | 0 <= i < j < |edits|
      ensures !Overlap(edits[i], edits[j])
    {
      assert edits[i] in edits && edits[j] in edits;
      var l :| l in lines && Targets(edits[i], l);
      var m :| m in lines && Targets(edits[j], m);
      TargetedEditsApart(edits[i], edits[j], l, m);
    }
  }

  /** No two replacements of the batch cover the same range. */
  lemma PlanReplacesApart(req: Request, p: Patterns, a: Anchors)
    requires DistinctLines(FoundLines(a))
    requires a.createLine.Some? && a.widgetFactoryStart.Some? ==>
               a.createLine.value.lineNumber
               != WidgetAnchor(p, a.widgetFactoryStart.value, a.widgetFactoryBounded).lineNumber
    ensures var edits := AddMiddleware(req, p, a).edits;
            forall i, j :: 0 <= i < j < |edits| && edits[i].Replace? && edits[j].Replace? ==>
              edits[i].range != edits[j].range
  {
    var front := ImportEdits(req.middleware, a.vdomImport);
    var c := if a.createLine.Some? then CreateEdits(req, p, a.createLine.value) else [];
    var k := CompanionPlan(req, a.lastImport).edits;
    var w := if a.widgetFactoryStart.Some?
             then WidgetEdits(req, p, WidgetAnchor(p, a.widgetFactoryStart.value, a.widgetFactoryBounded))
             else [];
    PlanSteps(req, p, a);
    if a.createLine.Some? && a.widgetFactoryStart.Some? {
      ReplacedLinesApart(req, p, a);
    }
    StepsReplacesApart(front, c, k, w);
  }

  /**
   In a batch made of insertions, a step whose only replacement comes first,
   more insertions and another such step, the two steps' replacements are the
   only ones, so no range is replaced twice when those two differ.
   */
  lemma StepsReplacesApart(front: seq<Edit>, c: seq<Edit>, k: seq<Edit>, w: seq<Edit>)
    requires forall e :: e in front ==> e.Insert?
    requires forall e :: e in k ==> e.Insert?
    requires forall n :: 0 < n < |c| ==> c[n].Insert?
    requires forall n :: 0 < n < |w| ==> w[n].Insert?
    requires 0 < |c| && 0 < |w| && c[0].Replace? && w[0].Replace? ==> c[0].range != w[0].range
    ensures var edits := front + c + k + w;
            forall i, j :: 0 <= i < j < |edits| && edits[i].Replace? && edits[j].Replace? ==>
              edits[i].range != edits[j].range
  {
    var edits := front + c + k + w;
    forall i, j | 0 <= i < j < |edits| && edits[i].Replace? && edits[j].Replace?
      ensures edits[i].range != edits[j].range
    {
      ReplaceIndices(front, c, k, w, i);
      ReplaceIndices(front, c, k, w, j);
    }
  }

  /** The create line's rewrite and the anchor line's rewrite cover different ranges. */
  lemma ReplacedLinesApart(req: Request, p: Patterns, a: Anchors)
    requires DistinctLines(FoundLines(a))
    requires a.createLine.Some? && a.widgetFactoryStart.Some?
    requires a.createLine.value.lineNumber
             != WidgetAnchor(p, a.widgetFactoryStart.value, a.widgetFactoryBounded).lineNumber
    ensures var anchor := WidgetAnchor(p, a.widgetFactoryStart.value, a.widgetFactoryBounded);
            CreateEdits(req, p, a.createLine.value)[0].Replace? && WidgetEdits(req, p, anchor)[0].Replace? ==>
              CreateEdits(req, p, a.createLine.value)[0].range != WidgetEdits(req, p, anchor)[0].range
  {
    var anchor := WidgetAnchor(p, a.widgetFactoryStart.value, a.widgetFactoryBounded);
    assert anchor in FoundLines(a);
    assert a.createLine.value in FoundLines(a);
  }

  /**
   When the create line is also the widget factory's anchor and both patterns
   capture existing entries, the batch replaces that line twice, and the two
   replacements overlap.
   */
  lemma CoincidingLinesOverlap(req: Request, p: Patterns, a: Anchors, l: Line)
    requires WellFormedLine(l) && |l.text| > 0
    requires a.vdomImport.None? && a.lastImport.None? && req.middleware != "store"
    requires a.createLine == Some(l) && a.widgetFactoryStart == Some(l) && p.widgetFactoryEnd(l.text)
    requires p.createLine(l.text).Matched? && p.createLine(l.text).group != ""
    requires p.widgetFactoryReplace(l.text).Matched? && p.widgetFactoryReplace(l.text).group != ""
    ensures var edits := AddMiddleware(req, p, a).edits;
            |edits| >= 2 && edits[0].Replace? && edits[1].Replace?
            && edits[0].range == l.range && edits[1].range == l.range
    ensures !NonOverlapping(AddMiddleware(req, p, a).edits)
  {
    var edits := AddMiddleware(req, p, a).edits;
    PlanSteps(req, p, a);
    assert Overlap(edits[0], edits[1]);
  }
}
