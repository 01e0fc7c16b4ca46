/** The multiton registry of `ImageAcquisitionAbstract`: every camera
    object constructed is stored in the class-wide dictionary `_instances`
    under the index `_next_instance_idx`, which then grows by one. Entries
    are never removed; closing a camera only sets its `is_closed` flag,
    after which the lookups skip it.

    The registry is a value here and every operation returns the new one.
    A camera object is named by the index it is registered under (its
    handle): each object is stored exactly once, so the handle identifies
    it as its reference does in the source. */
module ImageAcquisition {
  import opened Errors

  /** How a call to a callback ends: normally, with an `Exception`
      subclass, or with a `BaseException` that is not an `Exception`
      (KeyboardInterrupt, SystemExit, GeneratorExit). */
  datatype Ending = Returns | RaisesException | RaisesBaseException

  /** An entry of `on_close`. What a callback does is outside the model;
      `ends` records how calling it ends. */
  datatype Callback = Callback(id: nat, ends: Ending)

  /** The state of a camera the registry can see: the classes it is an
      instance of (its own class and its ancestors, for `isinstance`), the
      `basler_index` attribute when it has one, `is_closed` and
      `on_close`. */
  datatype Camera = Camera(classes: set<string>, basler: Option<int>, closed: bool, onClose: seq<Callback>)

  /** `_instances` and `_next_instance_idx`. */
  datatype Registry = Registry(cams: map<nat, Camera>, next: nat)

  const Empty: Registry := Registry(map[], 0)

  /** Indices are handed out in increasing order and never removed, so the
      keys are exactly 0 .. next-1 and the dictionary's insertion order is
      index order. */
  ghost predicate Valid(reg: Registry) {
    forall k: nat :: k in reg.cams <==> k < reg.next
  }

  lemma EmptyValid()
    ensures Valid(Empty)
  {
  }

  predicate IsOpen(reg: Registry, h: nat)
    requires Valid(reg)
  {
    h < reg.next && !reg.cams[h].closed
  }

  // ------------------------------------------------------------------
  // Lookups

  /** The `for idx in _instances` scan of `instance(None)` from index k:
      the first camera that is not closed. */
  function FirstOpenFrom(reg: Registry, k: nat): (r: Option<nat>)
    requires Valid(reg)
    ensures r.Some? ==> k <= r.value && IsOpen(reg, r.value)
    ensures r.Some? ==> forall j :: k <= j < r.value ==> !IsOpen(reg, j)
    ensures r.None? <==> forall j :: k <= j ==> !IsOpen(reg, j)
    decreases reg.next - k
  {
    if reg.next <= k then None
    else if !reg.cams[k].closed then assert IsOpen(reg, k); Some(k)
    else FirstOpenFrom(reg, k + 1)
  }

  /** `instance(idx)`: with an index, the camera registered there unless it
      is missing or closed; without one, the first camera that is not
      closed. */
  function Instance(reg: Registry, idx: Option<int>): (r: Option<nat>)
    requires Valid(reg)
    ensures idx.Some? ==> (r.Some? <==> 0 <= idx.value && IsOpen(reg, idx.value as nat))
    ensures idx.Some? && r.Some? ==> r.value as int == idx.value
    ensures idx.None? && r.Some? ==> IsOpen(reg, r.value) && forall j :: 0 <= j < r.value ==> !IsOpen(reg, j)
    ensures idx.None? ==> (r.None? <==> forall j :: 0 <= j ==> !IsOpen(reg, j))
  {
    match idx
    case None => FirstOpenFrom(reg, 0)
    case Some(i) =>
      if 0 <= i && i as nat in reg.cams then
        var camera := reg.cams[i as nat];
        if camera.closed then None else Some(i as nat)
      else None
  }

  /** The filter of `instances(subclass)`: no filter, or `isinstance`. */
  predicate OfClass(c: Camera, subclass: Option<string>) {
    subclass.None? || subclass.value in c.classes
  }

  predicate Listed(reg: Registry, subclass: Option<string>, h: nat)
    requires Valid(reg)
  {
    IsOpen(reg, h) && OfClass(reg.cams[h], subclass)
  }

  predicate Increasing(hs: seq<nat>) {
    forall i, j :: 0 <= i < j < |hs| ==> hs[i] < hs[j]
  }

  /** The loop of `instances(subclass)` from index k on. */
  function InstancesFrom(reg: Registry, subclass: Option<string>, k: nat): (r: seq<nat>)
    requires Valid(reg)
    ensures forall i :: 0 <= i < |r| ==> k <= r[i] < reg.next
    ensures Increasing(r)
    ensures forall h :: k <= h ==> (h in r <==> Listed(reg, subclass, h))
    decreases reg.next - k
  {
    if reg.next <= k then []
    else
      var rest := InstancesFrom(reg, subclass, k + 1);
      match Instance(reg, Some(k))
      case None => rest
      case Some(camera) =>
        if !OfClass(reg.cams[camera], subclass) then rest
        else [camera] + rest
  }

  /** `instances(subclass)`: the open cameras, of the class when one is
      given, in index order. */
  function Instances(reg: Registry, subclass: Option<string>): (r: seq<nat>)
    requires Valid(reg)
    ensures Increasing(r)
    ensures forall h :: h in r <==> Listed(reg, subclass, h)
  {
    InstancesFrom(reg, subclass, 0)
  }

  /** `instance(None)` is the first entry of `instances()`. */
  lemma {:induction false} FirstInstanceIsFirstListed(reg: Registry)
    requires Valid(reg)
    ensures var all := Instances(reg, None);
            Instance(reg, None) == if |all| == 0 then None else Some(all[0])
  {
    var all := Instances(reg, None);
    var r := Instance(reg, None);
    if |all| == 0 {
      assert forall j :: 0 <= j ==> !IsOpen(reg, j) by {
        forall j | 0 <= j
          ensures !IsOpen(reg, j)
        {
          assert !Listed(reg, None, j);
        }
      }
    } else {
      assert Listed(reg, None, all[0]);
      assert r.Some?;
      assert r.value in all by {
        assert Listed(reg, None, r.value);
      }
    }
  }

  /** The open cameras, as the list `instance_matches` receives. */
  function OpenCameras(reg: Registry): (cs: seq<Camera>)
    requires Valid(reg)
    ensures forall c :: c in cs ==> !c.closed
    ensures forall h :: IsOpen(reg, h) ==> reg.cams[h] in cs
    ensures forall c :: c in cs ==> exists h :: IsOpen(reg, h) && reg.cams[h] == c
    ensures var hs := Instances(reg, None);
      |cs| == |hs| && forall i :: 0 <= i < |cs| ==> cs[i] == reg.cams[hs[i]]
  {
    var hs := Instances(reg, None);
    assert forall i :: 0 <= i < |hs| ==> Listed(reg, None, hs[i]);
    var cs := seq(|hs|, i requires 0 <= i < |hs| => reg.cams[hs[i]]);
    CamerasOfListed(reg, hs, cs);
    cs
  }

  /** The cameras at the handles `instances()` lists are exactly the open
      ones. */
  lemma CamerasOfListed(reg: Registry, hs: seq<nat>, cs: seq<Camera>)
    requires Valid(reg) && hs == Instances(reg, None)
    requires forall i :: 0 <= i < |hs| ==> hs[i] < reg.next
    requires |cs| == |hs| && forall i :: 0 <= i < |cs| ==> cs[i] == reg.cams[hs[i]]
    ensures forall c :: c in cs ==> !c.closed
    ensures forall h :: IsOpen(reg, h) ==> reg.cams[h] in cs
    ensures forall c :: c in cs ==> exists h :: IsOpen(reg, h) && reg.cams[h] == c
  {
    forall h | IsOpen(reg, h)
      ensures reg.cams[h] in cs
    {
      assert Listed(reg, None, h);
      var i :| 0 <= i < |hs| && hs[i] == h;
      assert cs[i] == reg.cams[h];
    }
    forall c | c in cs
      ensures exists h :: IsOpen(reg, h) && reg.cams[h] == c
    {
      var i :| 0 <= i < |cs| && cs[i] == c;
      assert Listed(reg, None, hs[i]);
      assert IsOpen(reg, hs[i]) && reg.cams[hs[i]] == c;
    }
  }

  // ------------------------------------------------------------------
  // Registration

  /** What constructing a camera does to the registry. `matches` is the
      subclass's `instance_matches` for the new camera, applied to the open
      cameras; a match is a RuntimeError and registers nothing. Otherwise
      the camera is stored open, with no callbacks, at the next index,
      which is returned as its handle. */
  function Register(reg: Registry, classes: set<string>, basler: Option<int>, matches: seq<Camera> -> bool): (r: Result<(Registry, nat)>)
    requires Valid(reg)
    ensures r.Err? <==> matches(OpenCameras(reg))
    ensures r.Err? ==> r.error.RuntimeError?
    ensures r.Ok? ==> Valid(r.value.0) && r.value.1 == reg.next && r.value.0.next == reg.next + 1
    ensures r.Ok? ==> r.value.0.cams[r.value.1] == Camera(classes, basler, false, [])
    ensures r.Ok? ==> forall h :: h in reg.cams ==> h in r.value.0.cams && r.value.0.cams[h] == reg.cams[h]
  {
    if !matches(OpenCameras(reg)) then
      var idx := reg.next;
      var reg' := Registry(reg.cams[idx := Camera(classes, basler, false, [])], reg.next + 1);
      Ok((reg', idx))
    else
      Err(RuntimeError("a camera instance for this device already exists"))
  }

  /** A registered camera is found by its index and is listed last by
      `instances`, after the cameras listed before. */
  lemma {:induction false} RegisterThenFind(reg: Registry, classes: set<string>, basler: Option<int>, matches: seq<Camera> -> bool)
    requires Valid(reg) && !matches(OpenCameras(reg))
    ensures var (reg', h) := Register(reg, classes, basler, matches).value;
            && Instance(reg', Some(h)) == Some(h)
            && Instances(reg', None) == Instances(reg, None) + [h]
  {
    var (reg', h) := Register(reg, classes, basler, matches).value;
    var before := Instances(reg, None);
    var after := Instances(reg', None);
    var want := before + [h];
    assert Increasing(want) by {
      forall i | 0 <= i < |before|
        ensures before[i] < h
      {
        assert Listed(reg, None, before[i]);
      }
    }
    forall x: nat
      ensures x in after <==> x in want
    {
      if x < reg.next {
        assert Listed(reg', None, x) <==> Listed(reg, None, x);
      }
    }
    IncreasingSameElements(after, want);
  }

  /** Two increasing sequences with the same elements are equal. */
  lemma {:induction false} IncreasingSameElements(a: seq<nat>, b: seq<nat>)
    requires Increasing(a) && Increasing(b)
    requires forall x :: x in a <==> x in b
    ensures a == b
    decreases |a|
  {
    if |a| > 0 {
      assert a[0] in b;
    }
    if |b| > 0 {
      assert b[0] in a;
    }
    if |a| > 0 && |b| > 0 {
      assert a[0] == b[0];
      forall x
        ensures x in a[1..] <==> x in b[1..]
      {
        if x in a[1..] {
          assert x != a[0] && x in b;
        }
        if x in b[1..] {
          assert x != b[0] && x in a;
        }
      }
      IncreasingSameElements(a[1..], b[1..]);
    }
  }

  // ------------------------------------------------------------------
  // Closing

  /** A client appending a callback to a camera's `on_close` list. */
  function AddOnClose(reg: Registry, h: nat, cb: Callback): (reg': Registry)
    requires Valid(reg) && h < reg.next
    ensures Valid(reg') && reg'.next == reg.next
    ensures reg'.cams[h] == reg.cams[h].(onClose := reg.cams[h].onClose + [cb])
    ensures forall j :: j in reg.cams && j != h ==> reg'.cams[j] == reg.cams[j]
  {
    var c := reg.cams[h];
    Registry(reg.cams[h := c.(onClose := c.onClose + [cb])], reg.next)
  }

  /** The callbacks `close` called, in order, and whether an exception
      escaped from it. */
  datatype Calls = Calls(ran: seq<Callback>, escaped: bool)

  /** Whether a callback's exception gets past `et.ignored(Exception)`. */
  predicate Escapes(cb: Callback) {
    cb.ends == RaisesBaseException
  }

  /** `for callback in self.on_close` under `et.ignored(Exception)`: an
      `Exception` is swallowed and the loop goes on; any other
      `BaseException` leaves the loop, and `close`, at once. */
  function RunCallbacks(cbs: seq<Callback>): (r: Calls)
    ensures |r.ran| <= |cbs| && r.ran == cbs[..|r.ran|]
    ensures r.escaped <==> exists i :: 0 <= i < |cbs| && Escapes(cbs[i])
    ensures !r.escaped ==> r.ran == cbs
    ensures r.escaped ==> 0 < |r.ran| && Escapes(cbs[|r.ran| - 1])
    ensures forall i :: 0 <= i < |r.ran| - 1 ==> !Escapes(cbs[i])
  {
    CallsFrom(cbs, 0)
  }

  /** The loop from callback j on, the ones before it called without
      escape. */
  function CallsFrom(cbs: seq<Callback>, j: nat): (r: Calls)
    requires j <= |cbs|
    ensures j <= |r.ran| <= |cbs| && r.ran == cbs[..|r.ran|]
    ensures r.escaped <==> exists i :: j <= i < |cbs| && Escapes(cbs[i])
    ensures !r.escaped ==> r.ran == cbs
    ensures r.escaped ==> j < |r.ran| && Escapes(cbs[|r.ran| - 1])
    ensures forall i :: j <= i < |r.ran| - 1 ==> !Escapes(cbs[i])
    decreases |cbs| - j
  {
    if j == |cbs| then Calls(cbs, false)
    else if Escapes(cbs[j]) then Calls(cbs[..j + 1], true)
    else CallsFrom(cbs, j + 1)
  }

  /** Every callback is called, in order, exactly when none but possibly
      the last raises past `et.ignored(Exception)`: a callback raising an
      `Exception` does not stop the ones after it. */
  lemma EveryCallbackRuns(cbs: seq<Callback>)
    ensures RunCallbacks(cbs).ran == cbs <==> forall i :: 0 <= i < |cbs| - 1 ==> !Escapes(cbs[i])
  {
    var r := RunCallbacks(cbs);
    if r.escaped && forall i :: 0 <= i < |cbs| - 1 ==> !Escapes(cbs[i]) {
      assert |r.ran| - 1 == |cbs| - 1;
      assert r.ran == cbs[..|cbs|];
    }
  }

  /** The first callback raising a `BaseException` is the last one called,
      and the exception leaves `close`. */
  lemma StopsAtFirstEscape(cbs: seq<Callback>, k: nat)
    requires k < |cbs| && Escapes(cbs[k])
    requires forall i :: 0 <= i < k ==> !Escapes(cbs[i])
    ensures RunCallbacks(cbs) == Calls(cbs[..k + 1], true)
  {
    var r := RunCallbacks(cbs);
    assert r.escaped;
    var last := |r.ran| - 1;
    assert Escapes(cbs[last]);
    assert k <= last;
    assert last <= k;
  }

  /** The registry after `close`, the callbacks it called in order, and
      whether a `BaseException` escaped from one of them. */
  datatype Closing = Closing(reg: Registry, ran: seq<Callback>, escaped: bool)

  /** `close()` on the camera registered at h. A closed camera returns at
      once and nothing happens; otherwise only the flag changes, and it is
      set before any callback runs, so it stays set even when a callback's
      `BaseException` ends the loop and leaves `close`. */
  function Close(reg: Registry, h: nat): (r: Closing)
    requires Valid(reg) && h < reg.next
    ensures Valid(r.reg) && r.reg.next == reg.next
    ensures r.reg.cams[h] == reg.cams[h].(closed := true)
    ensures forall j :: j in reg.cams && j != h ==> r.reg.cams[j] == reg.cams[j]
    ensures reg.cams[h].closed ==> r.ran == [] && !r.escaped
    ensures !reg.cams[h].closed ==> Calls(r.ran, r.escaped) == RunCallbacks(reg.cams[h].onClose)
  {
    var c := reg.cams[h];
    if c.closed then Closing(reg, [], false)
    else
      var reg' := Registry(reg.cams[h := c.(closed := true)], reg.next);
      var calls := RunCallbacks(c.onClose);
      Closing(reg', calls.ran, calls.escaped)
  }

  /** Closing twice does nothing the second time. */
  lemma CloseIdempotent(reg: Registry, h: nat)
    requires Valid(reg) && h < reg.next
    ensures var once := Close(reg, h);
            Close(once.reg, h) == Closing(once.reg, [], false)
  {
  }

  /** After `close`, the camera is no longer handed out by `instance` or
      `instances`, and the lookups are otherwise unchanged. */
  lemma CloseHides(reg: Registry, h: nat, subclass: Option<string>)
    requires Valid(reg) && h < reg.next
    ensures var reg' := Close(reg, h).reg;
            && Instance(reg', Some(h)) == None
            && forall j :: j in Instances(reg', subclass) <==> j in Instances(reg, subclass) && j != h
  {
    var reg' := Close(reg, h).reg;
    forall j
      ensures j in Instances(reg', subclass) <==> j in Instances(reg, subclass) && j != h
    {
      assert Listed(reg', subclass, j) <==> Listed(reg, subclass, j) && j != h;
    }
  }

  /** Any number of `close()` calls on the same camera, each made whether
      or not the one before raised. */
  function CloseRepeatedly(reg: Registry, h: nat, times: nat): (r: Closing)
    requires Valid(reg) && h < reg.next
    ensures Valid(r.reg) && r.reg.next == reg.next
    decreases times
  {
    if times == 0 then Closing(reg, [], false)
    else
      var first := Close(reg, h);
      var rest := CloseRepeatedly(first.reg, h, times - 1);
      Closing(rest.reg, first.ran + rest.ran, first.escaped || rest.escaped)
  }

  /** However often a camera is closed, its callbacks are called by the
      first `close` only, and never if it was already closed; a callback
      cut off by a `BaseException` is not called by a later `close`. */
  lemma {:induction false} CallbacksRunAtMostOnce(reg: Registry, h: nat, times: nat)
    requires Valid(reg) && h < reg.next && 0 < times
    ensures var r := CloseRepeatedly(reg, h, times);
      r.ran == if reg.cams[h].closed then [] else RunCallbacks(reg.cams[h].onClose).ran
  {
    if times > 1 {
      var first := Close(reg, h);
      StaysClosed(first.reg, h, times - 1);
    }
  }

  lemma {:induction false} StaysClosed(reg: Registry, h: nat, times: nat)
    requires Valid(reg) && h < reg.next && reg.cams[h].closed
    ensures CloseRepeatedly(reg, h, times) == Closing(reg, [], false)
  {
    if times > 0 {
      StaysClosed(reg, h, times - 1);
    }
  }

  // ------------------------------------------------------------------
  // The Basler DCAM match rule

  /** `instance_matches` of the DCAM mono camera: some open camera has a
      `basler_index` equal to the new one's; cameras without the attribute
      are skipped. */
  predicate BaslerMatches(index: int, others: seq<Camera>) {
    exists c :: c in others && c.basler == Some(index)
  }

  /** At most one open camera per Basler device. */
  ghost predicate OnePerDevice(reg: Registry)
    requires Valid(reg)
  {
    forall i, j :: IsOpen(reg, i) && IsOpen(reg, j) && i != j && reg.cams[i].basler.Some? ==> reg.cams[i].basler != reg.cams[j].basler
  }

  /** With the Basler match rule, registration keeps one open camera per
      device. */
  lemma RegisterKeepsOnePerDevice(reg: Registry, classes: set<string>, index: int)
    requires Valid(reg) && OnePerDevice(reg)
    ensures var r := Register(reg, classes, Some(index), cs => BaslerMatches(index, cs));
            r.Ok? ==> OnePerDevice(r.value.0)
  {
    var r := Register(reg, classes, Some(index), cs => BaslerMatches(index, cs));
    if r.Ok? {
      var reg' := r.value.0;
      forall i | IsOpen(reg, i)
        ensures reg.cams[i].basler != Some(index)
      {
        assert reg.cams[i] in OpenCameras(reg);
      }
      assert forall i :: IsOpen(reg', i) && i != reg.next ==> IsOpen(reg, i);
    }
  }

  /** Closing keeps one open camera per device. */
  lemma CloseKeepsOnePerDevice(reg: Registry, h: nat)
    requires Valid(reg) && OnePerDevice(reg) && h < reg.next
    ensures OnePerDevice(Close(reg, h).reg)
  {
    var reg' := Close(reg, h).reg;
    assert forall i :: IsOpen(reg', i) ==> IsOpen(reg, i) && reg'.cams[i] == reg.cams[i];
  }

  /** A closed camera does not block a new camera for the same device. */
  lemma ClosedDoNotBlock(reg: Registry, classes: set<string>, index: int)
    requires Valid(reg)
    requires forall h :: h in reg.cams && reg.cams[h].basler == Some(index) ==> reg.cams[h].closed
    ensures Register(reg, classes, Some(index), cs => BaslerMatches(index, cs)).Ok?
  {
  }
}
