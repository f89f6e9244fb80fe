/** The host's side of a reload: the loaded image and the three entry points resolved out of it. */
module DllHost {
  import opened Wrappers

  /** A reload's loads, all of which have to fail for it to panic. */
  const LOAD_ATTEMPTS: nat := 40

  const ENTRY_INIT := "nya_app_entry_init"
  const ENTRY_RUN := "nya_app_entry_run"
  const ENTRY_DEINIT := "nya_app_entry_deinit"

  /** A library that opened: which image it is and the symbols it exports. */
  datatype Image = Image(id: nat, symbols: set<string>)

  /** A symbol resolved in an image. */
  datatype EntryPoint = EntryPoint(image: nat, symbol: string)

  /** What the calls of one load attempt come back with: the file's time, whether it copied, what opened. */
  datatype Attempt = Attempt(modified: Option<nat>, copied: bool, handle: Option<Image>)

  function Resolve(image: Image, symbol: string): Option<EntryPoint> {
    if symbol in image.symbols then Some(EntryPoint(image.id, symbol)) else None
  }

  /** Every call of the attempt succeeds. */
  predicate Loads(a: Attempt) {
    && a.modified.Some? && a.copied && a.handle.Some?
    && {ENTRY_INIT, ENTRY_RUN, ENTRY_DEINIT} <= a.handle.value.symbols
  }

  /** The first of the permitted attempts that loads, if any does. */
  ghost predicate FirstLoad(attempts: seq<Attempt>, k: nat) {
    && k < |attempts| && k < LOAD_ATTEMPTS && Loads(attempts[k])
    && forall i | 0 <= i < k :: !Loads(attempts[i])
  }

  class Host {
    var dll: Option<Image>
    var init: Option<EntryPoint>
    var run: Option<EntryPoint>
    var deinit: Option<EntryPoint>
    var lastModified: nat
    var generation: nat

    /** The entry points are all unset, or all resolved in the one image that is loaded. */
    predicate OneGeneration()
      reads this
    {
      match dll
      case None => init.None? && run.None? && deinit.None?
      case Some(image) =>
        && init == Some(EntryPoint(image.id, ENTRY_INIT))
        && run == Some(EntryPoint(image.id, ENTRY_RUN))
        && deinit == Some(EntryPoint(image.id, ENTRY_DEINIT))
    }

    constructor ()
      ensures OneGeneration() && dll.None? && generation == 0
    {
      dll, init, run, deinit := None, None, None, None;
      lastModified, generation := 0, 0;
    }

    /** One attempt: everything is committed at the end, so an attempt that fails changes nothing. */
    method Load(a: Attempt) returns (ok: bool)
      requires OneGeneration() && dll.None?
      modifies this
      ensures OneGeneration()
      ensures ok == Loads(a)
      ensures if ok then dll == a.handle && lastModified == a.modified.value && generation == old(generation) + 1
              else dll.None? && lastModified == old(lastModified) && generation == old(generation)
    {
      if a.modified.None? {
        return false;
      }
      if !a.copied {
        return false;
      }
      if a.handle.None? {
        return false;
      }
      var image := a.handle.value;
      var newInit, newRun := Resolve(image, ENTRY_INIT), Resolve(image, ENTRY_RUN);
      var newDeinit := Resolve(image, ENTRY_DEINIT);
      if newInit.None? || newRun.None? || newDeinit.None? {
        return false;
      }
      dll := Some(image);
      init, run, deinit := newInit, newRun, newDeinit;
      lastModified := a.modified.value;
      generation := generation + 1;
      return true;
    }

    method Unload()
      requires OneGeneration() && dll.Some?
      modifies this`dll, this`init, this`run, this`deinit
      ensures OneGeneration() && dll.None?
    {
      dll, init, run, deinit := None, None, None, None;
    }

    /**
     * A reload: unload, then retry. It ends with the image of the first attempt that loads; failing that it panics,
     * and the state still says what was loaded last.
     */
    method Reload(attempts: seq<Attempt>) returns (loaded: bool)
      requires OneGeneration() && dll.Some?
      requires |attempts| >= LOAD_ATTEMPTS
      modifies this
      ensures OneGeneration()
      ensures loaded <==> exists k: nat :: FirstLoad(attempts, k)
      ensures forall k: nat | FirstLoad(attempts, k) ::
        dll == attempts[k].handle && lastModified == attempts[k].modified.value && generation == old(generation) + 1
      ensures !loaded ==> dll.None? && lastModified == old(lastModified) && generation == old(generation)
    {
      Unload();
      loaded := false;
      var attempt: nat := 0;
      while attempt < LOAD_ATTEMPTS && !loaded
        invariant attempt <= LOAD_ATTEMPTS && OneGeneration()
        invariant forall i | 0 <= i < attempt - (if loaded then 1 else 0) :: !Loads(attempts[i])
        invariant loaded ==> attempt > 0 && FirstLoad(attempts, attempt - 1)
        invariant loaded ==>
          dll == attempts[attempt - 1].handle && lastModified == attempts[attempt - 1].modified.value
          && generation == old(generation) + 1
        invariant !loaded ==> dll.None? && lastModified == old(lastModified) && generation == old(generation)
      {
        loaded := Load(attempts[attempt]);
        attempt := attempt + 1;
      }
      assert forall k: nat | FirstLoad(attempts, k) :: loaded && k == attempt - 1;
    }
  }
}
