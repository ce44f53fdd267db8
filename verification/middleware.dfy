/**
 The edit planning behind the "add middleware" command: given the lines that
 the anchor lookups found in a widget module, the indentation unit and the
 name of a middleware, it produces the ordered batch of edits that wires the
 middleware into the module, and the companion files to create.

 The patterns of the regex module are opaque matchers (`Patterns`), and the
 lines `findLine` reported are inputs (`Anchors`): the planner never scans the
 document itself. Each step reads only the pre-edit lines.
 */
module Middleware {
  import opened Wrappers
  import opened StringOps
  import opened Editor

  /**
   The result of running a pattern's `exec` on a line: no match, or a match
   whose first capture group is `group` (empty when the group took no part).
   */
  datatype Match = NoMatch | Matched(group: string)

  /** The patterns the planner tests lines against. */
  datatype Patterns = Patterns(
    createLine: string -> Match,
    createAloneLine: string -> bool,
    widgetFactoryEnd: string -> bool,
    widgetFactoryReplace: string -> Match,
    widgetFactoryMiddlewareAlone: string -> bool
  )

  /** What each line lookup found in the document. */
  datatype Anchors = Anchors(
    /** the first line importing the vdom module */
    vdomImport: Option<Line>,
    /** the first line calling `create(...)` */
    createLine: Option<Line>,
    /** the last import line */
    lastImport: Option<Line>,
    /** the first line starting the widget factory call */
    widgetFactoryStart: Option<Line>,
    /** the first line matching the widget-factory pattern from the start line on, before the end marker */
    widgetFactoryBounded: Option<Line>
  )

  /**
   One invocation: the middleware's name, the indentation unit, the edited
   file's base name (no directory, no extension) and the names of the files
   already present beside it.
   */
  datatype Request = Request(middleware: string, tab: string, fileName: string, existing: set<string>)

  /** The staged edits, in order, and the companion files to write, in order. */
  datatype Plan = Plan(edits: seq<Edit>, writes: seq<FileWrite>)

  // ---------------------------------------------------------------------------
  // Import step
  // ---------------------------------------------------------------------------

  /** The symbol the middleware is imported as: `store` is the only one renamed. */
  function ImportName(middleware: string): (name: string)
    ensures middleware == "store" ==> name == "createStoreMiddleware"
    ensures middleware != "store" ==> name == middleware
  {
    if middleware == "store" then "create" + UpperFirst(middleware) + "Middleware"
    else middleware
  }

  /** The default import of the middleware from the framework's middleware directory. */
  function ImportStatement(middleware: string): string {
    "import " + ImportName(middleware) + " from '@dojo/framework/core/middleware/" + middleware + "';\r\n"
  }

  /** The import is placed after the vdom import line, and only when there is one. */
  function ImportEdits(middleware: string, vdomImport: Option<Line>): (edits: seq<Edit>)
    ensures |edits| <= 1
    ensures |edits| == 1 <==> vdomImport.Some?
    ensures forall e :: e in edits ==> e.Insert? && e.at == vdomImport.value.rangeIncludingLineBreak.end
    ensures forall e :: e in edits ==> Targets(e, vdomImport.value)
    ensures forall e :: e in edits ==>
              e.text == "import " + ImportName(middleware) + " from '@dojo/framework/core/middleware/" + middleware + "';\r\n"
  {
    match vdomImport
    case None => []
    case Some(line) => [Insert(line.rangeIncludingLineBreak.end, ImportStatement(middleware))]
  }

  // ---------------------------------------------------------------------------
  // Shared line rewrites
  // ---------------------------------------------------------------------------

  /** Indentation one level deeper than the line, counting every occurrence of `tab` in it. */
  function Indentation(tab: string, text: string): string {
    Repeat(tab, CountMatches(text, tab) + 1)
  }

  /** The line listing the middleware alone, after a line holding only the call's opening. */
  function AloneLine(tab: string, text: string, middleware: string): string {
    Indentation(tab, text) + middleware + ",\r\n"
  }

  /** Adds the middleware before each closing brace of the captured argument list. */
  function ExtendCapture(group: string, middleware: string): string {
    ReplaceSpacedBraces(group, ", " + middleware + " }")
  }

  /** The line with the first occurrence of the capture replaced by its extended form. */
  function AppendToCapture(text: string, group: string, middleware: string): string {
    ReplaceFirst(text, group, ExtendCapture(group, middleware))
  }

  // ---------------------------------------------------------------------------
  // Factory-creation step
  // ---------------------------------------------------------------------------

  /** The shapes of a `create(...)` line the planner tells apart. */
  datatype CreateShape =
    | CreateWithArguments(group: string)  // the capture holds existing arguments
    | CreateAlone                         // the call's arguments follow on later lines
    | CreateEmpty                         // any other matched line: an empty `create()`
    | CreateUnmatched                     // the pattern no longer matches the line

  function ClassifyCreate(p: Patterns, text: string): (shape: CreateShape)
    ensures shape.CreateUnmatched? <==> p.createLine(text).NoMatch?
    ensures shape.CreateWithArguments? <==> p.createLine(text).Matched? && p.createLine(text).group != ""
    ensures shape.CreateWithArguments? ==> shape.group == p.createLine(text).group
    ensures shape.CreateAlone? <==> p.createLine(text) == Matched("") && p.createAloneLine(text)
    ensures shape.CreateEmpty? <==> p.createLine(text) == Matched("") && !p.createAloneLine(text)
  {
    match p.createLine(text)
    case NoMatch => CreateUnmatched
    case Matched(group) =>
      if group != "" then CreateWithArguments(group)
      else if p.createAloneLine(text) then CreateAlone
      else CreateEmpty
  }

  /** The declaration the `store` middleware needs before the factory call. */
  const StoreLine := "const store = createStoreMiddleware();\r\n"

  /** `StoreLine` is the declaration template filled in with `store` and its import name. */
  lemma StoreLineSpelledOut()
    ensures "const " + "store" + " = " + "createStoreMiddleware" + "();\r\n" == StoreLine
  {
    StoreLineHead();
    assert "const store = createStoreMiddleware" + "();\r\n" == StoreLine;
  }

  /** The part of `StoreLine` before the call's parentheses. */
  lemma StoreLineHead()
    ensures "const " + "store" + " = " + "createStoreMiddleware" == "const store = createStoreMiddleware"
  {
    assert "const " + "store" + " = " == "const store = ";
  }

  /** The line that instantiates the `store` middleware before the factory call. */
  function StoreDeclaration(middleware: string): (decl: string)
    ensures middleware == "store" ==> decl == StoreLine
  {
    StoreLineSpelledOut();
    "const " + middleware + " = " + ImportName(middleware) + "();\r\n"
  }

  /**
   The edits at the `create(...)` line: one rewrite of the line, or, when the
   call stands alone, one inserted line after it; then, for `store` only, the
   store's declaration inserted before the line.
   */
  function CreateEdits(req: Request, p: Patterns, line: Line): (edits: seq<Edit>)
    ensures |edits| == if req.middleware == "store" then 2 else 1
    ensures ClassifyCreate(p, line.text).CreateAlone? <==> edits[0].Insert?
    ensures edits[0].Insert? ==> edits[0].at == line.rangeIncludingLineBreak.end
    ensures edits[0].Insert? ==>
              edits[0].text == Repeat(req.tab, CountMatches(line.text, req.tab) + 1) + req.middleware + ",\r\n"
    ensures edits[0].Replace? ==> edits[0].range == line.range
    ensures req.middleware == "store" ==>
              edits[1] == Insert(line.range.start, StoreLine)
    ensures forall e :: e in edits ==> Targets(e, line)
  {
    var middleware := req.middleware;
    var shapeEdit :=
      match ClassifyCreate(p, line.text)
      case CreateWithArguments(group) => Replace(line.range, AppendToCapture(line.text, group, middleware))
      case CreateAlone => Insert(line.rangeIncludingLineBreak.end, AloneLine(req.tab, line.text, middleware))
      case CreateEmpty => Replace(line.range, ReplaceFirst(line.text, "create()", "create({ " + middleware + " })"))
      case CreateUnmatched => Replace(line.range, line.text);
    [shapeEdit] + if middleware == "store" then [Insert(line.range.start, StoreDeclaration(middleware))] else []
  }

  // ---------------------------------------------------------------------------
  // Companion-asset step
  // ---------------------------------------------------------------------------

  /** The middlewares that come with companion assets. */
  predicate HasCompanion(middleware: string) {
    middleware == "theme" || middleware == "i18n"
  }

  const CssContents := ".root {\r\n\r\n}\r\n"
  const CssDefinitionContents := "export const root: string;\r\n"
  const BundleContents := "const messages = {\r\n\r\n};\r\n\r\nexport default { messages };\r\n"

  /** Writes the file only when no file of that name exists yet. */
  function WriteIfMissing(existing: set<string>, name: string, contents: string): (writes: seq<FileWrite>)
    ensures name in existing ==> writes == []
    ensures name !in existing ==> writes == [FileWrite(name, contents)]
  {
    if name in existing then [] else [FileWrite(name, contents)]
  }

  /**
   For `theme`, the CSS-module import and the stylesheet with its type
   declarations; for `i18n`, the bundle import and the message bundle; for
   every other middleware, and when the module has no import line, nothing.
   */
  function CompanionPlan(req: Request, lastImport: Option<Line>): (plan: Plan)
    ensures |plan.edits| == if HasCompanion(req.middleware) && lastImport.Some? then 1 else 0
    ensures plan.writes != [] ==> HasCompanion(req.middleware) && lastImport.Some?
    ensures forall e :: e in plan.edits ==> e.Insert? && e.at == lastImport.value.rangeIncludingLineBreak.end
    ensures forall e :: e in plan.edits ==> Targets(e, lastImport.value)
    ensures forall w :: w in plan.writes ==> w.name !in req.existing
    ensures req.middleware == "theme" && lastImport.Some? ==>
              plan.edits == [Insert(lastImport.value.rangeIncludingLineBreak.end,
                                    "import * as css from './" + req.fileName + ".m.css';\r\n")]
    ensures req.middleware == "i18n" && lastImport.Some? ==>
              plan.edits == [Insert(lastImport.value.rangeIncludingLineBreak.end,
                                    "import bundle from './" + req.fileName + ".nls';\r\n")]
  {
    if !HasCompanion(req.middleware) || lastImport.None? then Plan([], [])
    else
      var at := lastImport.value.rangeIncludingLineBreak.end;
      var name := req.fileName;
      if req.middleware == "theme" then
        Plan([Insert(at, "import * as css from './" + name + ".m.css';\r\n")],
             WriteIfMissing(req.existing, name + ".m.css", CssContents)
             + WriteIfMissing(req.existing, name + ".m.css.d.ts", CssDefinitionContents))
      else
        Plan([Insert(at, "import bundle from './" + name + ".nls';\r\n")],
             WriteIfMissing(req.existing, name + ".nls.ts", BundleContents))
  }

  // ---------------------------------------------------------------------------
  // Widget-factory step
  // ---------------------------------------------------------------------------

  /**
   The line that carries the widget factory's arguments: the start line when
   the call closes on it, otherwise the line the bounded search found, falling
   back to the start line.
   */
  function WidgetAnchor(p: Patterns, start: Line, bounded: Option<Line>): (anchor: Line)
    ensures p.widgetFactoryEnd(start.text) ==> anchor == start
    ensures !p.widgetFactoryEnd(start.text) && bounded.Some? ==> anchor == bounded.value
    ensures bounded.None? ==> anchor == start
  {
    if !p.widgetFactoryEnd(start.text) && bounded.Some? then bounded.value else start
  }

  /** The shapes of a widget-factory line the planner tells apart. */
  datatype WidgetShape =
    | WidgetWithMiddleware(group: string)  // the capture holds existing middleware
    | WidgetMiddlewareAlone                // the middleware object opens on this line
    | WidgetMatchedOther                   // matched, with nothing to extend
    | WidgetCallClose                      // the call's argument object closes here
    | WidgetEmptyCall                      // anything else: an empty `()`

  function ClassifyWidget(p: Patterns, text: string): (shape: WidgetShape)
    ensures shape.WidgetWithMiddleware? <==> p.widgetFactoryReplace(text).Matched? && p.widgetFactoryReplace(text).group != ""
    ensures shape.WidgetWithMiddleware? ==> shape.group == p.widgetFactoryReplace(text).group
    ensures shape.WidgetMiddlewareAlone? <==>
              p.widgetFactoryReplace(text) == Matched("") && p.widgetFactoryMiddlewareAlone(text)
    ensures shape.WidgetMatchedOther? <==>
              p.widgetFactoryReplace(text) == Matched("") && !p.widgetFactoryMiddlewareAlone(text)
    ensures shape.WidgetCallClose? <==> p.widgetFactoryReplace(text).NoMatch? && HasCallClose(text)
    ensures shape.WidgetEmptyCall? <==> p.widgetFactoryReplace(text).NoMatch? && !HasCallClose(text)
  {
    match p.widgetFactoryReplace(text)
    case Matched(group) =>
      if group != "" then WidgetWithMiddleware(group)
      else if p.widgetFactoryMiddlewareAlone(text) then WidgetMiddlewareAlone
      else WidgetMatchedOther
    case NoMatch =>
      if HasCallClose(text) then WidgetCallClose else WidgetEmptyCall
  }

  /** The line `theme` and `i18n` add right after the widget factory's anchor line; no other middleware adds one. */
  function FollowUpLine(middleware: string, tab: string): (line: Option<string>)
    ensures line.Some? <==> HasCompanion(middleware)
  {
    if middleware == "theme" then Some(tab + "const themedCss = theme.classes(css);\r\n")
    else if middleware == "i18n" then Some(tab + "const { messages } = i18n.localize(bundle);\r\n")
    else None
  }

  /**
   The edits at the widget factory's anchor line: one rewrite of the line, or,
   when the middleware object opens alone on it, one inserted line after it;
   then the middleware's follow-up line, if it has one.
   */
  function WidgetEdits(req: Request, p: Patterns, anchor: Line): (edits: seq<Edit>)
    ensures |edits| == if HasCompanion(req.middleware) then 2 else 1
    ensures ClassifyWidget(p, anchor.text).WidgetMiddlewareAlone? <==> edits[0].Insert?
    ensures edits[0].Insert? ==> edits[0].at == anchor.rangeIncludingLineBreak.end
    ensures edits[0].Insert? ==>
              edits[0].text == Repeat(req.tab, CountMatches(anchor.text, req.tab) + 1) + req.middleware + ",\r\n"
    ensures edits[0].Replace? ==> edits[0].range == anchor.range
    ensures HasCompanion(req.middleware) ==>
              edits[1] == Insert(anchor.rangeIncludingLineBreak.end, FollowUpLine(req.middleware, req.tab).value)
    ensures forall e :: e in edits ==> Targets(e, anchor)
  {
    var middleware := req.middleware;
    var text := anchor.text;
    var shapeEdit :=
      match ClassifyWidget(p, text)
      case WidgetWithMiddleware(group) => Replace(anchor.range, AppendToCapture(text, group, middleware))
      case WidgetMiddlewareAlone => Insert(anchor.rangeIncludingLineBreak.end, AloneLine(req.tab, text, middleware))
      case WidgetMatchedOther => Replace(anchor.range, text)
      case WidgetCallClose => Replace(anchor.range, ReplaceCallCloses(text, ", middleware: { " + middleware + " } })"))
      case WidgetEmptyCall => Replace(anchor.range, ReplaceFirst(text, "()", "({ middleware: { " + middleware + " } })"));
    [shapeEdit] +
      match FollowUpLine(middleware, req.tab)
      case Some(followUp) => [Insert(anchor.rangeIncludingLineBreak.end, followUp)]
      case None => []
  }

  // ---------------------------------------------------------------------------
  // The whole command
  // ---------------------------------------------------------------------------

  /** The lines the lookups found. */
  function FoundLines(a: Anchors): (lines: set<Line>)
    ensures a.vdomImport.Some? ==> a.vdomImport.value in lines
    ensures a.createLine.Some? ==> a.createLine.value in lines
    ensures a.lastImport.Some? ==> a.lastImport.value in lines
    ensures a.widgetFactoryStart.Some? ==> a.widgetFactoryStart.value in lines
    ensures a.widgetFactoryBounded.Some? ==> a.widgetFactoryBounded.value in lines
  {
    (if a.vdomImport.Some? then {a.vdomImport.value} else {})
    + (if a.createLine.Some? then {a.createLine.value} else {})
    + (if a.lastImport.Some? then {a.lastImport.value} else {})
    + (if a.widgetFactoryStart.Some? then {a.widgetFactoryStart.value} else {})
    + (if a.widgetFactoryBounded.Some? then {a.widgetFactoryBounded.value} else {})
  }

  /** The number of edits the plan stages, step by step. */
  function ExpectedEditCount(middleware: string, a: Anchors): nat {
    (if a.vdomImport.Some? then 1 else 0)
    + (if a.createLine.Some? then (if middleware == "store" then 2 else 1) else 0)
    + (if HasCompanion(middleware) && a.lastImport.Some? then 1 else 0)
    + (if a.widgetFactoryStart.Some? then (if HasCompanion(middleware) then 2 else 1) else 0)
  }

  /** Every edit is addressed at one of `lines`. */
  ghost predicate Anchored(edits: seq<Edit>, lines: set<Line>) {
    forall e :: e in edits ==> exists l :: l in lines && Targets(e, l)
  }

  /** The edits of the import, factory-creation, companion and widget-factory steps, in that order. */
  function AddMiddleware(req: Request, p: Patterns, a: Anchors): (plan: Plan)
    ensures |plan.edits| == ExpectedEditCount(req.middleware, a)
    ensures Anchored(plan.edits, FoundLines(a))
    ensures forall w :: w in plan.writes ==> w.name !in req.existing
    ensures plan.writes != [] ==> HasCompanion(req.middleware) && a.lastImport.Some?
    ensures plan.writes == CompanionPlan(req, a.lastImport).writes
  {
    var importEdits := ImportEdits(req.middleware, a.vdomImport);
    var createEdits :=
      match a.createLine
      case None => []
      case Some(line) => CreateEdits(req, p, line);
    var companion := CompanionPlan(req, a.lastImport);
    var widgetEdits :=
      match a.widgetFactoryStart
      case None => []
      case Some(start) => WidgetEdits(req, p, WidgetAnchor(p, start, a.widgetFactoryBounded));
    AnchoredSteps(req, p, a, importEdits, createEdits, companion.edits, widgetEdits);
    CountedSteps(req, p, a, importEdits, createEdits, companion.edits, widgetEdits);
    Plan(importEdits + createEdits + companion.edits + widgetEdits, companion.writes)
  }

  /** Each step's edits address the line its lookup found, so the whole plan is anchored. */
  lemma AnchoredSteps(req: Request, p: Patterns, a: Anchors,
                      importEdits: seq<Edit>, createEdits: seq<Edit>, companionEdits: seq<Edit>, widgetEdits: seq<Edit>)
    requires importEdits == ImportEdits(req.middleware, a.vdomImport)
    requires createEdits == if a.createLine.Some? then CreateEdits(req, p, a.createLine.value) else []
    requires companionEdits == CompanionPlan(req, a.lastImport).edits
    requires widgetEdits == if a.widgetFactoryStart.Some?
                            then WidgetEdits(req, p, WidgetAnchor(p, a.widgetFactoryStart.value, a.widgetFactoryBounded))
                            else []
    ensures Anchored(importEdits + createEdits + companionEdits + widgetEdits, FoundLines(a))
  {
  }

  /** Each step contributes its own number of edits. */
  lemma CountedSteps(req: Request, p: Patterns, a: Anchors,
                     importEdits: seq<Edit>, createEdits: seq<Edit>, companionEdits: seq<Edit>, widgetEdits: seq<Edit>)
    requires importEdits == ImportEdits(req.middleware, a.vdomImport)
    requires createEdits == if a.createLine.Some? then CreateEdits(req, p, a.createLine.value) else []
    requires companionEdits == CompanionPlan(req, a.lastImport).edits
    requires widgetEdits == if a.widgetFactoryStart.Some?
                            then WidgetEdits(req, p, WidgetAnchor(p, a.widgetFactoryStart.value, a.widgetFactoryBounded))
                            else []
    ensures |importEdits + createEdits + companionEdits + widgetEdits| == ExpectedEditCount(req.middleware, a)
  {
  }
}
