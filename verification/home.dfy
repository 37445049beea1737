/**
  The home page's tool selector: which tool panel is open, chosen by a
  `tool` query parameter, by the hero buttons, or by the tab switch inside
  the open tool area. Scrolling and its delays are only recorded as a
  request to scroll.
 */
module Home {
  import opened Common

  datatype ActiveTool = NoTool | Compress | Enhance

  /** A tool a button or a link can select. */
  type Chosen = t: ActiveTool | t != NoTool witness Compress

  const Initial: ActiveTool := NoTool

  /** The query-parameter spelling of a tool. */
  function ParamName(t: Chosen): string {
    match t
    case Compress => "compress"
    case Enhance => "enhance"
  }

  /** The accepted values of the `tool` parameter. */
  function ParseToolParam(param: Option<string>): (t: Option<Chosen>)
    ensures t == Some(Compress) <==> param == Some("compress")
    ensures t == Some(Enhance) <==> param == Some("enhance")
    ensures t.None? <==> param != Some("compress") && param != Some("enhance")
  {
    if param == Some("compress") then Some(Compress)
    else if param == Some("enhance") then Some(Enhance)
    else None
  }

  /** Every tool is reachable by a link, and the link selects that tool. */
  lemma ParamRoundTrip(t: Chosen)
    ensures ParseToolParam(Some(ParamName(t))) == Some(t)
  {
  }

  /** A selection: the tool now active, and whether the page scrolls to it. */
  datatype Selection = Selection(active: ActiveTool, scroll: bool)

  /** The query-parameter effect: an accepted value selects that tool and
      scrolls to it; anything else changes nothing. */
  function DeepLink(active: ActiveTool, param: Option<string>): (r: Selection)
    ensures ParseToolParam(param).Some? ==> r == Selection(ParseToolParam(param).value, true)
    ensures ParseToolParam(param).None? ==> r == Selection(active, false)
  {
    match ParseToolParam(param)
    case Some(t) => Selection(t, true)
    case None => Selection(active, false)
  }

  /** The hero buttons: select and scroll. */
  function ScrollToTool(tool: Chosen): (r: Selection)
    ensures r.active == tool && r.scroll
  {
    Selection(tool, true)
  }

  /** What the tool area shows. */
  datatype Panel = CompressorPanel | EnhancerPanel

  /** The tool area is rendered only once a tool is active; the compressor
      for `Compress`, the enhancer otherwise. */
  function ShownPanel(active: ActiveTool): (p: Option<Panel>)
    ensures p.None? <==> active == NoTool
    ensures p == Some(CompressorPanel) <==> active == Compress
    ensures p == Some(EnhancerPanel) <==> active == Enhance
  {
    match active
    case NoTool => None
    case Compress => Some(CompressorPanel)
    case Enhance => Some(EnhancerPanel)
  }

  /** A change of the query string, a hero button, or a tab of the open tool
      area (the tabs exist only while the area is shown). */
  datatype Event = Link(param: Option<string>) | Hero(tool: Chosen) | Tab(tool: Chosen)

  function Step(active: ActiveTool, e: Event): ActiveTool {
    match e
    case Link(p) => DeepLink(active, p).active
    case Hero(t) => ScrollToTool(t).active
    case Tab(t) => if ShownPanel(active).Some? then t else active
  }

  function Run(active: ActiveTool, events: seq<Event>): ActiveTool
    decreases |events|
  {
    if events == [] then active else Run(Step(active, events[0]), events[1..])
  }

  /** Once a tool is open the tool area never closes again. */
  lemma {:induction false} NeverReturnsToNone(active: ActiveTool, events: seq<Event>)
    requires active != NoTool
    ensures Run(active, events) != NoTool
    decreases |events|
  {
    if events != [] {
      NeverReturnsToNone(Step(active, events[0]), events[1..]);
    }
  }

  /** An event that opens the tool area from the initial page: a hero
      button, or a link with an accepted parameter. A tab cannot, since the
      tabs are only shown inside the open area. */
  predicate Selects(e: Event) {
    e.Hero? || (e.Link? && ParseToolParam(e.param).Some?)
  }

  /** From the initial page, the area stays closed exactly as long as no
      event selected a tool. */
  lemma {:induction false} ClosedUntilSelected(events: seq<Event>)
    ensures Run(Initial, events) == NoTool <==> forall i :: 0 <= i < |events| ==> !Selects(events[i])
    decreases |events|
  {
    if events != [] {
      var rest := events[1..];
      if Selects(events[0]) {
        NeverReturnsToNone(Step(Initial, events[0]), rest);
      } else {
        assert Step(Initial, events[0]) == Initial;
        ClosedUntilSelected(rest);
        assert (forall i :: 0 <= i < |events| ==> !Selects(events[i])) <==>
               (forall i :: 0 <= i < |rest| ==> !Selects(rest[i])) by {
          forall i | 0 <= i < |rest| ensures rest[i] == events[i + 1] { }
        }
      }
    }
  }
}
