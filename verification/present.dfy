/** `_present_image` as written, with the two ctypes conversions it performs
    before calling `vkQueuePresentKHR`. The engine stores every handle as a
    `c_void_p` instance, and `c_void_p(...)` accepts only None or an int, so the
    conversion of the stored swapchain raises TypeError. That TypeError is no
    RuntimeError: the present handler lets it pass, the outer handler of
    `render_frame` swallows it, and no frame is ever presented.
    `FrameLoop.RenderFrame` is the frame with the conversions fixed; this module
    proves that the two agree everywhere except on the present step. */
module Present {
  import opened Wrappers
  import opened Vulkan
  import opened EngineBase
  import opened FrameLoop

  /** A Python value as ctypes sees it when converting or storing it. */
  datatype PyValue =
    | PyNone
    | PyInt(value: int)
    | VoidPointer(address: Handle)   // an instance of `c_void_p`, the engine's handle type
    | Reference(target: Handle)      // what `ctypes.byref(x)` returns
    | Pointer(target: Handle)        // what `ctypes.pointer(x)` returns
    | ArrayOf(first: Handle)         // a ctypes array of a field's target type, at its first element

  /** `ctypes.c_void_p(v)`: None becomes the null pointer and an int its address;
      any other object, a `c_void_p` instance included, raises TypeError (None). */
  function VoidPointerOf(v: PyValue): (r: Option<Handle>)
    ensures r.Some? <==> v.PyNone? || v.PyInt?
    ensures v.PyInt? ==> r == Some(v.value)
  {
    match v
    case PyNone => Some(0)
    case PyInt(i) => Some(i)
    case _ => None
  }

  /** Assigning `v` to a pointer-typed field of a structure: None, a pointer
      object or an array of the target type is stored (the array as the address
      of its first element, as the extension-name arrays of instance and device
      creation are); a `byref` reference raises TypeError (None). */
  function StorePointerField(v: PyValue): (r: Option<Handle>)
    ensures r.Some? <==> v.PyNone? || v.Pointer? || v.ArrayOf?
    ensures v.Pointer? ==> r == Some(v.target)
    ensures v.ArrayOf? ==> r == Some(v.first)
  {
    match v
    case PyNone => Some(0)
    case Pointer(t) => Some(t)
    case ArrayOf(a) => Some(a)
    case _ => None
  }

  /** How `_present_image` hands its data to ctypes: the object it passes to
      `c_void_p(...)`, and whether the present-info pointer fields receive
      `byref` references or pointer objects. */
  datatype PresentArgs = PresentArgs(swapchainArg: PyValue, byReference: bool)

  /** As written: the stored swapchain is itself a `c_void_p` instance, and
      both pointer fields receive `byref` references. */
  function AsWrittenArgs(e: Engine): PresentArgs {
    PresentArgs(VoidPointer(e.swapchain), true)
  }

  /** As intended: the handle's integer value, and pointer objects in the fields. */
  function IntendedArgs(e: Engine): PresentArgs {
    PresentArgs(PyInt(e.swapchain), false)
  }

  /** What `_present_image` does: raise TypeError before any call, or issue the
      present and check its result. */
  datatype PresentStep = TypeErrorRaised | Presented(call: Call, error: Option<RuntimeError>)

  function PresentImage(e: Engine, args: PresentArgs, imageIndex: nat, result: int): (r: PresentStep)
    ensures r.Presented? <==> (args.swapchainArg.PyNone? || args.swapchainArg.PyInt?) && !args.byReference
    ensures r.Presented? ==>
              && r.call.QueuePresent? && r.call.queue == e.graphicsQueue
              && r.call.presentInfo.imageIndices == [imageIndex]
              && (r.error.None? <==> result == VK_SUCCESS)
  {
    match VoidPointerOf(args.swapchainArg)
    case None => TypeErrorRaised
    case Some(swapchain) =>
      var field := if args.byReference then Reference(swapchain) else Pointer(swapchain);
      match StorePointerField(field)
      case None => TypeErrorRaised
      case Some(_) =>
        Presented(QueuePresent(e.graphicsQueue, PresentInfoFor(swapchain, imageIndex)), CheckVkResult(result, MSG_PRESENT))
  }

  /** `render_frame` with the present step performed by `PresentImage(e, args, ..)`:
      a RuntimeError from acquire or present goes through the stale test, and
      any other exception (the TypeError included) ends the frame with `false`. */
  function RenderFrameWith(e: Engine, s: FrameScript, args: PresentArgs): (r: Frame)
    ensures |r.trace| >= 1 && r.trace[0] == AcquireNextImage(e.device, e.swapchain, ACQUIRE_TIMEOUT)
    ensures r.rendered ==> FrameSucceeds(s) && PresentImage(e, args, s.imageIndex, s.presentResult).Presented?
  {
    var acquire := AcquireNextImage(e.device, e.swapchain, ACQUIRE_TIMEOUT);
    match CheckVkResult(s.acquireResult, MSG_ACQUIRE)
    case Some(err) => Recover(e, [acquire], err, s.recreate)
    case None =>
      var rendered := [acquire, CustomRender(s.imageIndex)];
      if s.hookRaises then
        Frame(e, rendered, false)
      else
        match PresentImage(e, args, s.imageIndex, s.presentResult)
        case TypeErrorRaised => Frame(e, rendered, false)
        case Presented(call, err) =>
          match err
          case Some(err) => Recover(e, rendered + [call], err, s.recreate)
          case None => Frame(e, rendered + [call], true)
  }

  /** With the conversions fixed, `render_frame` is exactly `RenderFrame`. */
  lemma IntendedFrameIsRenderFrame(e: Engine, s: FrameScript)
    ensures RenderFrameWith(e, s, IntendedArgs(e)) == RenderFrame(e, s)
  {
  }

  /** As written, no frame presents and none is rendered. After a successful
      acquire the frame is the acquire and the hook call, whatever the hook and
      the driver do, and the engine is unchanged: the stale-present recovery
      can never run. */
  lemma AsWrittenNeverPresents(e: Engine, s: FrameScript)
    ensures var r := RenderFrameWith(e, s, AsWrittenArgs(e));
            && !r.rendered
            && (forall i :: 0 <= i < |r.trace| ==> !r.trace[i].QueuePresent?)
            && (s.acquireResult == VK_SUCCESS ==>
                  && r.engine == e
                  && r.trace == [AcquireNextImage(e.device, e.swapchain, ACQUIRE_TIMEOUT), CustomRender(s.imageIndex)])
  {
    var r := RenderFrameWith(e, s, AsWrittenArgs(e));
    var acquire := AcquireNextImage(e.device, e.swapchain, ACQUIRE_TIMEOUT);
    match CheckVkResult(s.acquireResult, MSG_ACQUIRE)
    case Some(err) =>
      assert r == Recover(e, [acquire], err, s.recreate);
    case None =>
  }

  /** Before the present step the two frames are one: a failed acquire (stale or
      not) and a raising hook end the as-written frame exactly as `RenderFrame`
      does, recovery included. */
  lemma AsWrittenAgreesBeforePresent(e: Engine, s: FrameScript)
    requires s.acquireResult != VK_SUCCESS || s.hookRaises
    ensures RenderFrameWith(e, s, AsWrittenArgs(e)) == RenderFrame(e, s)
  {
  }

  /** As written, one frame keeps every handle but the swapchain, destroys the
      swapchain only right after an idle wait, and requests swapchains only
      under the fixed policy. */
  lemma AsWrittenFrameKeepsDiscipline(e: Engine, s: FrameScript)
    ensures var f := RenderFrameWith(e, s, AsWrittenArgs(e));
            && SameButSwapchain(f.engine, e)
            && DestroyAfterIdle(f.trace)
            && RequestsFollowPolicy(f.trace, e.device, e.surface)
  {
    if s.acquireResult != VK_SUCCESS || s.hookRaises {
      AsWrittenAgreesBeforePresent(e, s);
      FrameOrdering(e, s);
      FrameRequestsFollowPolicy(e, s);
    } else {
      AsWrittenNeverPresents(e, s);
    }
  }

  /** The discrepancy on the plainest input: acquire, hook and present all
      succeed. The corrected frame presents and is rendered; as written the
      frame stops after the hook and reports failure. */
  lemma SucceedingFrameIsLostAsWritten(e: Engine, s: FrameScript)
    requires FrameSucceeds(s)
    ensures RenderFrame(e, s).rendered
    ensures !RenderFrameWith(e, s, AsWrittenArgs(e)).rendered
    ensures RenderFrame(e, s).trace ==
              RenderFrameWith(e, s, AsWrittenArgs(e)).trace + [QueuePresent(e.graphicsQueue, PresentInfoFor(e.swapchain, s.imageIndex))]
  {
    AsWrittenNeverPresents(e, s);
    FrameWithoutRecovery(e, s);
  }

  /** Passing the handle's integer value at line 462 is not enough: the `byref`
      references stored in the present-info fields still raise TypeError. */
  lemma ReferencesStillRaise(e: Engine, imageIndex: nat, result: int)
    ensures PresentImage(e, PresentArgs(PyInt(e.swapchain), true), imageIndex, result).TypeErrorRaised?
    ensures PresentImage(e, IntendedArgs(e), imageIndex, result).Presented?
  {
  }

  /** Repeated `render_frame` calls, as written. */
  function RunFramesAsWritten(e: Engine, scripts: seq<FrameScript>): (r: Run)
    ensures |r.rendered| == |scripts|
    decreases |scripts|
  {
    if |scripts| == 0 then Run(e, [], [])
    else
      var f := RenderFrameWith(e, scripts[0], AsWrittenArgs(e));
      var rest := RunFramesAsWritten(f.engine, scripts[1..]);
      Run(rest.engine, f.trace + rest.trace, [f.rendered] + rest.rendered)
  }

  predicate NoneRendered(rendered: seq<bool>) {
    forall i :: 0 <= i < |rendered| ==> !rendered[i]
  }

  predicate NoPresent(t: seq<Call>) {
    forall i :: 0 <= i < |t| ==> !t[i].QueuePresent?
  }

  /** As written, no frame of any run is rendered and no present is ever issued. */
  lemma {:induction false} RunAsWrittenNeverPresents(e: Engine, scripts: seq<FrameScript>)
    ensures NoneRendered(RunFramesAsWritten(e, scripts).rendered)
    ensures NoPresent(RunFramesAsWritten(e, scripts).trace)
    decreases |scripts|
  {
    if |scripts| > 0 {
      var f := RenderFrameWith(e, scripts[0], AsWrittenArgs(e));
      var rest := RunFramesAsWritten(f.engine, scripts[1..]);
      AsWrittenNeverPresents(e, scripts[0]);
      RunAsWrittenNeverPresents(f.engine, scripts[1..]);
      var r := RunFramesAsWritten(e, scripts);
      assert r.rendered == [f.rendered] + rest.rendered;
      assert r.trace == f.trace + rest.trace;
      forall i | 0 <= i < |r.trace|
        ensures !r.trace[i].QueuePresent?
      {
        if i >= |f.trace| {
          assert r.trace[i] == rest.trace[i - |f.trace|];
        }
      }
    }
  }

  /** The frame-loop guarantees carry over to the as-written run: over any
      number of frames the device and surface stay fixed, every destroy follows
      an idle wait, and every swapchain request is the fixed-policy one. */
  lemma {:induction false} RunAsWrittenKeepsDiscipline(e: Engine, scripts: seq<FrameScript>)
    ensures SameButSwapchain(RunFramesAsWritten(e, scripts).engine, e)
    ensures DestroyAfterIdle(RunFramesAsWritten(e, scripts).trace)
    ensures RequestsFollowPolicy(RunFramesAsWritten(e, scripts).trace, e.device, e.surface)
    decreases |scripts|
  {
    if |scripts| > 0 {
      var f := RenderFrameWith(e, scripts[0], AsWrittenArgs(e));
      var rest := RunFramesAsWritten(f.engine, scripts[1..]);
      AsWrittenFrameKeepsDiscipline(e, scripts[0]);
      RunAsWrittenKeepsDiscipline(f.engine, scripts[1..]);
      if |scripts[1..]| > 0 {
        var g := RenderFrameWith(f.engine, scripts[1..][0], AsWrittenArgs(f.engine));
        assert rest.trace == g.trace + RunFramesAsWritten(g.engine, scripts[1..][1..]).trace;
      }
      DestroyAfterIdleConcat(f.trace, rest.trace);
      RequestsFollowPolicyConcat(f.trace, rest.trace, e.device, e.surface);
    }
  }
}
