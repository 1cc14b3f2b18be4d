/**
 * The status machine of the HubSpot form embed (components/HubSpotEmbed.tsx): the effect
 * that validates the configuration, makes sure the forms script is on the page and
 * creates the form once, and the cleanup that cancels a run. The asynchronous end of a
 * run (script loaded or failed, the spin-wait for `window.hbspt`, the container still
 * mounted, `create` throwing) arrives as the parameters of `Settle`.
 */
module HubSpotEmbed {
  import opened Wrappers
  import opened HubSpotConfig

  datatype Status = Idle | Loading | Ready | Error

  /** How `ensureScript` ended: the script failed to load, or it resolved and `window.hbspt` is there or not. */
  datatype ScriptResult = LoadFailed | Loaded(apiPresent: bool)

  /** The part of the component's state the end of a run can change. */
  datatype Effects = Effects(status: Status, created: bool, targetHasForm: bool, creates: nat)

  /**
   * The rest of `createForm` after `await ensureScript()`, as written: a missing
   * `window.hbspt` after the wait skips `create` through optional chaining and still
   * marks the form created and the status `ready`.
   */
  function CreateFormAsWritten(e: Effects, cancelled: bool, script: ScriptResult,
                               hasTarget: bool, createThrows: bool): (r: Effects)
    ensures cancelled ==> r == e
    ensures r.creates <= e.creates + 1
  {
    if script.LoadFailed? then (if cancelled then e else e.(status := Error))
    else if cancelled then e
    else if !hasTarget then e.(status := Error)
    else if e.created then e
    else if !script.apiPresent then e.(targetHasForm := false, created := true, status := Ready)
    else if createThrows then e.(targetHasForm := false, creates := e.creates + 1, status := Error)
    else e.(targetHasForm := true, created := true, creates := e.creates + 1, status := Ready)
  }

  /**
   * The rest of `createForm` with a missing `window.hbspt` treated as a failure: the
   * status becomes `error` and the form is not marked created.
   */
  function CreateForm(e: Effects, cancelled: bool, script: ScriptResult,
                      hasTarget: bool, createThrows: bool): (r: Effects)
    ensures cancelled ==> r == e
    ensures r.creates <= e.creates + 1
  {
    if script.LoadFailed? then (if cancelled then e else e.(status := Error))
    else if cancelled then e
    else if !hasTarget then e.(status := Error)
    else if e.created then e
    else if !script.apiPresent then e.(targetHasForm := false, status := Error)
    else if createThrows then e.(targetHasForm := false, creates := e.creates + 1, status := Error)
    else e.(targetHasForm := true, created := true, creates := e.creates + 1, status := Ready)
  }

  /**
   * As written, a run whose script resolved without `window.hbspt` ends `ready` with an
   * empty container and no `create` call.
   */
  lemma ReadyWithoutForm()
    ensures var e := Effects(Loading, false, false, 0);
            var r := CreateFormAsWritten(e, false, Loaded(false), true, false);
            r.status == Ready && r.created && !r.targetHasForm && r.creates == 0
  {
  }

  /** The two definitions differ only where the script resolved without `window.hbspt`. */
  lemma CreateFormAgrees(e: Effects, cancelled: bool, script: ScriptResult, hasTarget: bool, createThrows: bool)
    requires script == LoadFailed || script.apiPresent
    ensures CreateForm(e, cancelled, script, hasTarget, createThrows)
            == CreateFormAsWritten(e, cancelled, script, hasTarget, createThrows)
  {
  }

  /**
   * The end of a run: `create` is called, once, exactly when the run was not cancelled,
   * the API is there, the container is there and nothing was created before; `ready`
   * only when that call returned, and then the container holds the form; a cancelled
   * run changes nothing; a failed load, a missing container, a missing API or a
   * throwing `create` gives `error` unless the run was cancelled.
   */
  lemma CreateFormSpec(e: Effects, cancelled: bool, script: ScriptResult, hasTarget: bool, createThrows: bool)
    requires e.status != Ready
    ensures var r := CreateForm(e, cancelled, script, hasTarget, createThrows);
      && (r.status == Ready <==> !cancelled && script == Loaded(true) && hasTarget && !e.created && !createThrows)
      && (r.status == Ready ==> r.created && r.targetHasForm && r.creates == e.creates + 1)
      && (r.creates != e.creates <==> !cancelled && script == Loaded(true) && hasTarget && !e.created)
      && (e.created ==> r.creates == e.creates)
      && (!cancelled && (script == LoadFailed || !hasTarget) ==> r.status == Error)
      && (!cancelled && hasTarget && !e.created && (script == Loaded(false) || createThrows) ==> r.status == Error)
      && (r.targetHasForm ==> e.targetHasForm || r.status == Ready)
  {
  }

  /** The page: how many `hubspot-forms-v2-js` script elements it holds and whether `window.hbspt.forms.create` exists. */
  class Document {
    var scriptTags: nat
    var apiLoaded: bool

    constructor(scriptTags: nat, apiLoaded: bool)
      ensures this.scriptTags == scriptTags && this.apiLoaded == apiLoaded
    {
      this.scriptTags := scriptTags;
      this.apiLoaded := apiLoaded;
    }
  }

  /**
   * One mounted embed. Runs of the effect are numbered; `cancelled[r]` is run `r`'s
   * local `cancelled` flag, `pending[r]` says its `createForm` has not finished, and
   * `creates[r]` counts its `create` calls, one that threw included. `active` is the run whose cleanup React has
   * not called yet; `created` is `createdRef.current`.
   */
  class Embed {
    const doc: Document
    var status: Status
    var errorKey: Option<ErrorKey>
    var created: bool
    var targetHasForm: bool
    var cancelled: seq<bool>
    var pending: seq<bool>
    var creates: seq<nat>
    var active: Option<nat>

    predicate Valid()
      reads this, doc
    {
      && |cancelled| == |pending| == |creates|
      && doc.scriptTags <= 1
      && (forall r :: 0 <= r < |creates| ==> creates[r] <= 1)
      && (forall r :: 0 <= r < |pending| && pending[r] ==> creates[r] == 0)
      && (forall r :: 0 <= r < |cancelled| && active != Some(r) ==> cancelled[r])
      && (active.Some? ==> active.value < |cancelled| && !cancelled[active.value])
      && (created ==> active.Some? && !pending[active.value] && creates[active.value] == 1)
      && targetHasForm == created
      && (status == Ready && active.Some? ==> created)
    }

    /** Mounting: `status` is `idle`, no `errorKey`, nothing created, no run yet. */
    constructor(doc: Document)
      requires doc.scriptTags <= 1
      ensures Valid() && this.doc == doc
      ensures status == Idle && errorKey == None && !created && !targetHasForm
      ensures cancelled == [] && active == None
    {
      this.doc := doc;
      status := Idle;
      errorKey := None;
      created := false;
      targetHasForm := false;
      cancelled := [];
      pending := [];
      creates := [];
      active := None;
    }

    /**
     * The effect for configuration `cfg`, run after the previous run's cleanup. An
     * invalid configuration sets `errorKey` and `error` and stops: no run starts, no
     * script is added and `created` is left as it was. A valid one resets `created`,
     * sets `loading`, adds the script element unless the API is loaded or an element is
     * there already, and starts run number `|cancelled|`.
     */
    method RunEffect(cfg: Config)
      requires Valid() && active == None
      modifies this, doc
      ensures Valid()
      ensures Validate(cfg).Some? ==>
                && errorKey == Validate(cfg) && status == Error
                && created == old(created) && targetHasForm == old(targetHasForm)
                && cancelled == old(cancelled) && pending == old(pending) && creates == old(creates)
                && active == None
                && doc.scriptTags == old(doc.scriptTags) && doc.apiLoaded == old(doc.apiLoaded)
      ensures Validate(cfg).None? ==>
                && errorKey == old(errorKey) && status == Loading && !created
                && targetHasForm == old(targetHasForm) && !targetHasForm
                && cancelled == old(cancelled) + [false] && pending == old(pending) + [true]
                && creates == old(creates) + [0] && active == Some(|old(cancelled)|)
                && doc.apiLoaded == old(doc.apiLoaded)
                && doc.scriptTags == (if !doc.apiLoaded && old(doc.scriptTags) == 0 then 1 else old(doc.scriptTags))
    {
      var err := Validate(cfg);
      if err.Some? {
        errorKey := err;
        status := Error;
        return;
      }
      StartRun();
    }

    /**
     * The valid branch of the effect: `created` reset, `loading`, the script element
     * added when needed, and a new run that is neither cancelled nor finished.
     */
    method StartRun()
      requires Valid() && active == None
      modifies this, doc
      ensures Valid()
      ensures errorKey == old(errorKey) && status == Loading && !created && !targetHasForm
      ensures cancelled == old(cancelled) + [false] && pending == old(pending) + [true]
      ensures creates == old(creates) + [0] && active == Some(|old(cancelled)|)
      ensures doc.apiLoaded == old(doc.apiLoaded)
      ensures doc.scriptTags == (if !doc.apiLoaded && old(doc.scriptTags) == 0 then 1 else old(doc.scriptTags))
    {
      var run := |cancelled|;
      var c, p, n := cancelled + [false], pending + [true], creates + [0];
      assert forall r :: 0 <= r < |n| ==> n[r] <= 1;
      assert forall r :: 0 <= r < |p| && p[r] ==> n[r] == 0;
      assert forall r :: 0 <= r < |c| && Some(run) != Some(r) ==> c[r];
      if !doc.apiLoaded && doc.scriptTags == 0 {
        doc.scriptTags := 1;
      }
      created, targetHasForm, status := false, false, Loading;
      cancelled, pending, creates, active := c, p, n, Some(run);
    }

    /** React's cleanup of the active run: cancel it, clear the container, reset `created`. */
    method Cleanup()
      requires Valid() && active.Some?
      modifies this
      ensures Valid()
      ensures cancelled == old(cancelled)[old(active).value := true]
      ensures !created && !targetHasForm && active == None
      ensures status == old(status) && errorKey == old(errorKey)
      ensures pending == old(pending) && creates == old(creates)
    {
      cancelled := cancelled[active.value := true];
      created := false;
      targetHasForm := false;
      active := None;
    }

    /**
     * The end of run `run`'s `createForm`, with what the page did meanwhile: the state
     * moves as `CreateForm` says for that run's `cancelled` flag, and a script that
     * resolved with the API present leaves the API loaded.
     */
    method Settle(run: nat, script: ScriptResult, hasTarget: bool, createThrows: bool)
      requires Valid() && run < |pending| && pending[run]
      requires doc.apiLoaded ==> script == Loaded(true)
      modifies this, doc
      ensures Valid()
      ensures var e := CreateForm(Effects(old(status), old(created), old(targetHasForm), old(creates)[run]),
                                  old(cancelled)[run], script, hasTarget, createThrows);
              && status == e.status && created == e.created && targetHasForm == e.targetHasForm
              && creates == old(creates)[run := e.creates]
      ensures pending == old(pending)[run := false]
      ensures cancelled == old(cancelled) && active == old(active) && errorKey == old(errorKey)
      ensures doc.scriptTags == old(doc.scriptTags)
      ensures doc.apiLoaded == (old(doc.apiLoaded) || script == Loaded(true))
    {
      if script == Loaded(true) {
        doc.apiLoaded := true;
      }
      pending := pending[run := false];
      var e := CreateForm(Effects(status, created, targetHasForm, creates[run]),
                          cancelled[run], script, hasTarget, createThrows);
      status, created, targetHasForm := e.status, e.created, e.targetHasForm;
      creates := creates[run := e.creates];
    }
  }
}
