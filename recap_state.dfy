/**
 * The recap panel's state (`src/lib/recap-state.svelte.ts`): whether the
 * recap is hidden, loading or shown, what it shows, and the last error.
 * Each update is a method of `RecapStateManager`, specified by a step
 * function on a snapshot of the fields.
 */
module RecapState {
  import opened Wrappers
  import opened Manager

  datatype Visibility = Hidden | Loading | Visible

  /** The fields of the state manager at one moment. */
  datatype Snapshot = Snapshot(
    visibility: Visibility,
    content: string,
    isLoading: bool,
    error: Option<string>,
    kind: ContentType)

  /** A fresh manager: hidden, nothing to show, not loading, no error, a recap. */
  const Initial := Snapshot(Hidden, "", false, None, Recap)

  /** `toggle`: a shown recap is hidden; from any other state a load starts. */
  function AfterToggle(s: Snapshot): (r: Snapshot)
    ensures s.visibility == Visible ==> r == s.(visibility := Hidden)
    ensures s.visibility != Visible ==> r == s.(visibility := Loading, isLoading := true)
  {
    if s.visibility == Visible then s.(visibility := Hidden)
    else s.(visibility := Loading, isLoading := true)
  }

  /** `setContent`: show the new content; the load is over and any error is cleared. */
  function AfterSetContent(s: Snapshot, content: string, kind: ContentType): (r: Snapshot)
    ensures r == Snapshot(Visible, content, false, None, kind)
  {
    Snapshot(Visible, content, false, None, kind)
  }

  /** `setError`: hide the panel and stop loading; what was shown is kept. */
  function AfterSetError(s: Snapshot, e: string): (r: Snapshot)
    ensures r.visibility == Hidden && !r.isLoading && r.error == Some(e)
    ensures r.content == s.content && r.kind == s.kind
  {
    s.(error := Some(e), visibility := Hidden, isLoading := false)
  }

  /** `hide`: only the visibility changes. */
  function AfterHide(s: Snapshot): (r: Snapshot)
    ensures r == s.(visibility := Hidden)
  {
    s.(visibility := Hidden)
  }

  /** `show`: shown only when there is content; otherwise nothing changes. */
  function AfterShow(s: Snapshot): (r: Snapshot)
    ensures s.content != "" ==> r == s.(visibility := Visible)
    ensures s.content == "" ==> r == s
  {
    if s.content != "" then s.(visibility := Visible) else s
  }

  /** A panel in the loading state is flagged as loading. */
  predicate Consistent(s: Snapshot) {
    s.visibility == Loading ==> s.isLoading
  }

  class RecapStateManager {
    var visibility: Visibility
    var content: string
    var isLoading: bool
    var error: Option<string>
    var kind: ContentType

    function State(): Snapshot
      reads this
    {
      Snapshot(visibility, content, isLoading, error, kind)
    }

    constructor()
      ensures State() == Initial
    {
      visibility := Hidden;
      content := "";
      isLoading := false;
      error := None;
      kind := Recap;
    }

    method Toggle()
      modifies this
      ensures State() == AfterToggle(old(State()))
    {
      if visibility == Visible {
        visibility := Hidden;
      } else {
        visibility := Loading;
        isLoading := true;
      }
    }

    method SetContent(newContent: string, newKind: ContentType)
      modifies this
      ensures State() == AfterSetContent(old(State()), newContent, newKind)
    {
      content := newContent;
      kind := newKind;
      visibility := Visible;
      isLoading := false;
      error := None;
    }

    method SetError(e: string)
      modifies this
      ensures State() == AfterSetError(old(State()), e)
    {
      error := Some(e);
      visibility := Hidden;
      isLoading := false;
    }

    method Hide()
      modifies this
      ensures State() == AfterHide(old(State()))
    {
      visibility := Hidden;
    }

    method Show()
      modifies this
      ensures State() == AfterShow(old(State()))
    {
      if content != "" {
        visibility := Visible;
      }
    }

    /** `toggleText`: the label of the toggle button. */
    function ToggleText(): (t: string)
      reads this
      ensures t == "Hide " <==> IsVisible()
      ensures t == "Show " <==> !IsVisible()
    {
      if visibility == Visible then "Hide " else "Show "
    }

    /** `isVisible`. */
    predicate IsVisible()
      reads this
    {
      visibility == Visible
    }
  }

  // ---- Properties of the state machine ----

  /** Every update keeps a loading panel flagged as loading. */
  lemma UpdatesStayConsistent(s: Snapshot, content: string, kind: ContentType, e: string)
    requires Consistent(s)
    ensures Consistent(AfterToggle(s)) && Consistent(AfterSetContent(s, content, kind))
    ensures Consistent(AfterSetError(s, e)) && Consistent(AfterHide(s)) && Consistent(AfterShow(s))
  {
  }

  /**
   * Toggling twice does not come back: a shown recap goes to hidden and then
   * to loading, so the panel reloads instead of reappearing.
   */
  lemma ToggleTwiceReloads(s: Snapshot)
    requires s.visibility == Visible
    ensures AfterToggle(AfterToggle(s)) == s.(visibility := Loading, isLoading := true)
  {
  }

  /** Hiding and then showing content that was set brings the same recap back. */
  lemma HideThenShowRestores(s: Snapshot, content: string, kind: ContentType)
    requires content != ""
    ensures AfterShow(AfterHide(AfterSetContent(s, content, kind))) == AfterSetContent(s, content, kind)
  {
  }

  /** An error after a load hides the panel yet keeps the previous content available to `show`. */
  lemma ErrorKeepsPreviousContent(s: Snapshot, content: string, kind: ContentType, e: string)
    requires content != ""
    ensures var failed := AfterSetError(AfterToggle(AfterSetContent(s, content, kind)), e);
      failed.visibility == Hidden && AfterShow(failed).visibility == Visible && AfterShow(failed).content == content
  {
  }

  /**
   * `show` while a load is pending displays the old content with the loading
   * flag still set: the only way to be visible and loading at once.
   */
  lemma ShowDuringLoad(s: Snapshot)
    requires s.content != "" && s.visibility == Hidden
    ensures var r := AfterShow(AfterToggle(s));
      r.visibility == Visible && r.isLoading
  {
  }
}
