/**
 * The progress-bar link: which clicks start the navigation progress bar.
 * URLs are records of the parts the rule compares; resolving an `href`
 * against the current location is not part of this model.
 */
module NavLink {
  import opened Wrappers

  datatype Url = Url(origin: string, pathname: string, search: string, hash: string)

  /** The parts of a click the rule reads: the anchor's `target` attribute, the modifier keys, the button. */
  datatype Click = Click(target: Option<string>, metaKey: bool, ctrlKey: bool, shiftKey: bool,
                         altKey: bool, button: int)

  /** `isModifiedEvent`: a click the browser handles itself (new tab, new window, download). */
  function IsModifiedEvent(e: Click): (r: bool)
    ensures e.metaKey || e.ctrlKey || e.shiftKey || e.altKey || e.button == 1 ==> r
    ensures e.target.Some? && e.target.value !in {"", "_self"} ==> r
    ensures !r <==> (e.target.None? || e.target.value in {"", "_self"})
                    && !e.metaKey && !e.ctrlKey && !e.shiftKey && !e.altKey && e.button != 1
  {
    (e.target.Some? && e.target.value != "" && e.target.value != "_self")
    || e.metaKey || e.ctrlKey || e.shiftKey || e.altKey
    || e.button == 1
  }

  /** `shouldTriggerStartEvent`. */
  function ShouldTriggerStartEvent(current: Url, target: Url, click: Option<Click>): (r: bool)
    ensures click.Some? && IsModifiedEvent(click.value) ==> !r
    ensures current.origin != target.origin ==> !r
    ensures current.pathname == target.pathname && current.search == target.search ==> !r
    ensures r <==> (click.None? || !IsModifiedEvent(click.value)) && current.origin == target.origin
                   && (current.pathname != target.pathname || current.search != target.search)
  {
    if click.Some? && IsModifiedEvent(click.value) then false
    else if current.origin != target.origin then false
    else if current.pathname == target.pathname && current.search == target.search then false
    else true
  }

  /** The fragment never matters: a link that differs only in its hash starts no progress. */
  lemma HashIgnored(current: Url, target: Url, click: Option<Click>, hash: string)
    ensures ShouldTriggerStartEvent(current, target.(hash := hash), click)
         == ShouldTriggerStartEvent(current, target, click)
    ensures !ShouldTriggerStartEvent(current, current.(hash := hash), click)
  {
  }

  predicate StartsWithSlash(s: string) { |s| > 0 && s[0] == '/' }

  /** Whether `Link` renders the router link (an href starting with "/") or a plain anchor. */
  predicate UsesRouterLink(href: Option<string>) {
    href.Some? && StartsWithSlash(href.value)
  }

  datatype Effect = StartProgress | CallerOnClick

  /**
   * What a click on a `Link` does, in order. `target` is `href` resolved
   * against the current location.
   */
  function ClickEffects(href: Option<string>, hasOnClick: bool, current: Url, target: Url, e: Click)
    : (r: seq<Effect>)
    ensures StartProgress in r <==> UsesRouterLink(href) && ShouldTriggerStartEvent(current, target, Some(e))
    ensures CallerOnClick in r <==> hasOnClick
    ensures |r| <= 2 && (|r| == 2 ==> r == [StartProgress, CallerOnClick])
  {
    var caller := if hasOnClick then [CallerOnClick] else [];
    if !UsesRouterLink(href) then caller
    else if ShouldTriggerStartEvent(current, target, Some(e)) then [StartProgress] + caller
    else caller
  }
}
