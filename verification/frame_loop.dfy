/** The per-frame protocol of the engine: acquire an image, run the render hook,
    present, and recreate the swapchain when a failure message carries the
    stale code's text. Every exception is swallowed into a `false` result, so a
    frame is a plain value: the engine after it, the calls issued, the result.
    The present step here is the one the engine intends; module `Present`
    models the conversions it performs as written, which raise before the call. */
module FrameLoop {
  import opened Wrappers
  import opened Strings
  import opened Vulkan
  import opened EngineBase

  /** What the driver and the render hook do during one `render_frame` call: the
      acquire result and the index it writes, whether the hook raises, the present
      result, and the reply to a swapchain re-creation should one happen. */
  datatype FrameScript = FrameScript(
    acquireResult: int,
    imageIndex: nat,
    hookRaises: bool,
    presentResult: int,
    recreate: Native)

  datatype Frame = Frame(engine: Engine, trace: seq<Call>, rendered: bool)

  datatype Recreation = Recreation(engine: Engine, trace: seq<Call>, error: Option<RuntimeError>)

  /** The calls of `t` that satisfy `p`, in order. */
  function Filter(t: seq<Call>, p: Call -> bool): (r: seq<Call>)
    ensures |r| <= |t|
    ensures forall i :: 0 <= i < |r| ==> p(r[i])
  {
    if |t| == 0 then [] else (if p(t[0]) then [t[0]] else []) + Filter(t[1..], p)
  }

  lemma {:induction false} FilterConcat(a: seq<Call>, b: seq<Call>, p: Call -> bool)
    ensures Filter(a + b, p) == Filter(a, p) + Filter(b, p)
    decreases |a|
  {
    if |a| == 0 {
      assert a + b == b;
    } else {
      assert (a + b)[0] == a[0];
      assert (a + b)[1..] == a[1..] + b;
      FilterConcat(a[1..], b, p);
    }
  }

  predicate IsRender(c: Call) { c.CustomRender? }
  predicate IsPresent(c: Call) { c.QueuePresent? }
  predicate IsWaitIdle(c: Call) { c.DeviceWaitIdle? }
  predicate IsSwapchainRequest(c: Call) { c.CreateSwapchain? }

  /** Every swapchain destruction is immediately preceded by a device-idle wait
      on the same device. */
  predicate DestroyAfterIdle(t: seq<Call>) {
    forall i :: 0 <= i < |t| && t[i].DestroySwapchain? ==> i > 0 && t[i - 1] == DeviceWaitIdle(t[i].device)
  }

  /** `_prepare_present_info`: one swapchain, one image index. */
  function PresentInfoFor(swapchain: Handle, imageIndex: nat): (info: PresentInfo)
    ensures info.sType == VK_STRUCTURE_TYPE_PRESENT_INFO_KHR
    ensures info.swapchainCount == |info.swapchains| == |info.imageIndices| == 1
    ensures info.swapchains[0] == swapchain && info.imageIndices[0] == imageIndex
  {
    PresentInfo(VK_STRUCTURE_TYPE_PRESENT_INFO_KHR, 1, [swapchain], [imageIndex])
  }

  /** `_recreate_swapchain`: wait for the device to go idle, destroy the current
      swapchain, request a new one under the fixed policy. The stored handle is
      replaced only when the request succeeds; otherwise the RuntimeError is
      passed on and the (already destroyed) old handle stays stored. */
  function RecreateSwapchain(e: Engine, reply: Native): (r: Recreation)
    ensures r.trace == [DeviceWaitIdle(e.device), DestroySwapchain(e.device, e.swapchain),
                        CreateSwapchain(e.device, SwapchainInfo(e.surface))]
    ensures FixedSwapchainPolicy(r.trace[2].swapchainInfo, e.surface)
    ensures r.error.None? <==> reply.result == VK_SUCCESS
    ensures r.engine == e.(swapchain := if reply.result == VK_SUCCESS then reply.handle else e.swapchain)
    ensures r.error.Some? ==> Reports(r.error.value, MSG_CREATE_SWAPCHAIN, reply.result)
  {
    var teardown := [DeviceWaitIdle(e.device), DestroySwapchain(e.device, e.swapchain)];
    var created := BuildSwapchain(e.device, e.surface, reply);
    match created.result
    case Ok(handle) => Recreation(e.(swapchain := handle), teardown + created.trace, None)
    case Raised(err) => Recreation(e, teardown + created.trace, Some(err))
  }

  /** The frame ends in a recreation: the acquire code is stale, or the acquire
      succeeded, the hook returned and the present code is stale. */
  predicate Recovers(s: FrameScript) {
    || IsStaleCode(s.acquireResult)
    || (s.acquireResult == VK_SUCCESS && !s.hookRaises && IsStaleCode(s.presentResult))
  }

  /** The handling of a RuntimeError from acquire or present: a stale message
      leads to one recreation (whose own error is swallowed too); any other
      message is swallowed. The frame is skipped either way. */
  function Recover(e: Engine, done: seq<Call>, err: RuntimeError, reply: Native): (r: Frame)
    ensures !r.rendered
    ensures IsStale(err) ==>
              r.trace == done + [DeviceWaitIdle(e.device), DestroySwapchain(e.device, e.swapchain),
                                 CreateSwapchain(e.device, SwapchainInfo(e.surface))]
    ensures IsStale(err) ==>
              r.engine == e.(swapchain := if reply.result == VK_SUCCESS then reply.handle else e.swapchain)
    ensures !IsStale(err) ==> r.engine == e && r.trace == done
  {
    if IsStale(err) then
      var rc := RecreateSwapchain(e, reply);
      Frame(rc.engine, done + rc.trace, false)
    else
      Frame(e, done, false)
  }

  /** `render_frame` with a working present step: acquire, hook, present; the
      outer handler turns every exception into `false`, so the result is always
      a frame. */
  function RenderFrame(e: Engine, s: FrameScript): (r: Frame)
    ensures r.rendered <==> s.acquireResult == VK_SUCCESS && !s.hookRaises && s.presentResult == VK_SUCCESS
    ensures |r.trace| >= 1 && r.trace[0] == AcquireNextImage(e.device, e.swapchain, ACQUIRE_TIMEOUT)
    ensures r.engine == e.(swapchain := if Recovers(s) && s.recreate.result == VK_SUCCESS then s.recreate.handle else e.swapchain)
  {
    FrameMessagesAreDigitFree();
    StaleMessageIffStaleCode(MSG_ACQUIRE, s.acquireResult);
    StaleMessageIffStaleCode(MSG_PRESENT, s.presentResult);
    SuccessIsNotStale();
    var acquire := AcquireNextImage(e.device, e.swapchain, ACQUIRE_TIMEOUT);
    match CheckVkResult(s.acquireResult, MSG_ACQUIRE)
    case Some(err) => Recover(e, [acquire], err, s.recreate)
    case None =>
      var rendered := [acquire, CustomRender(s.imageIndex)];
      if s.hookRaises then
        Frame(e, rendered, false)
      else
        var presented := rendered + [QueuePresent(e.graphicsQueue, PresentInfoFor(e.swapchain, s.imageIndex))];
        match CheckVkResult(s.presentResult, MSG_PRESENT)
        case Some(err) => Recover(e, presented, err, s.recreate)
        case None => Frame(e, presented, true)
  }

  /** Acquire reports a stale code: one recreation (idle wait, destroy, create)
      right after the acquire, the hook is never called, the frame is skipped. */
  lemma StaleAcquireRecreatesOnce(e: Engine, s: FrameScript)
    requires IsStaleCode(s.acquireResult)
    ensures var r := RenderFrame(e, s);
            && !r.rendered
            && r.trace == [AcquireNextImage(e.device, e.swapchain, ACQUIRE_TIMEOUT),
                           DeviceWaitIdle(e.device), DestroySwapchain(e.device, e.swapchain),
                           CreateSwapchain(e.device, SwapchainInfo(e.surface))]
  {
    SuccessIsNotStale();
    FrameMessagesAreDigitFree();
    StaleMessageIffStaleCode(MSG_ACQUIRE, s.acquireResult);
  }

  /** Acquire fails with any other code: the RuntimeError is swallowed, nothing
      else is called and the engine is unchanged. */
  lemma FailedAcquireSkipsFrame(e: Engine, s: FrameScript)
    requires s.acquireResult != VK_SUCCESS && !IsStaleCode(s.acquireResult)
    ensures var r := RenderFrame(e, s);
            && !r.rendered && r.engine == e
            && r.trace == [AcquireNextImage(e.device, e.swapchain, ACQUIRE_TIMEOUT)]
  {
    FrameMessagesAreDigitFree();
    StaleMessageIffStaleCode(MSG_ACQUIRE, s.acquireResult);
  }

  /** The hook raises: its exception is swallowed, nothing is presented and the
      engine is unchanged. */
  lemma HookFailureSkipsPresent(e: Engine, s: FrameScript)
    requires s.acquireResult == VK_SUCCESS && s.hookRaises
    ensures var r := RenderFrame(e, s);
            && !r.rendered && r.engine == e
            && r.trace == [AcquireNextImage(e.device, e.swapchain, ACQUIRE_TIMEOUT), CustomRender(s.imageIndex)]
  {
  }

  /** Present reports a stale code: the hook has already run once with the
      acquired index, then one recreation follows the present; the frame is skipped. */
  lemma StalePresentRecreatesOnce(e: Engine, s: FrameScript)
    requires s.acquireResult == VK_SUCCESS && !s.hookRaises && IsStaleCode(s.presentResult)
    ensures var r := RenderFrame(e, s);
            && !r.rendered
            && r.trace == [AcquireNextImage(e.device, e.swapchain, ACQUIRE_TIMEOUT),
                           CustomRender(s.imageIndex),
                           QueuePresent(e.graphicsQueue, PresentInfoFor(e.swapchain, s.imageIndex)),
                           DeviceWaitIdle(e.device), DestroySwapchain(e.device, e.swapchain),
                           CreateSwapchain(e.device, SwapchainInfo(e.surface))]
  {
    FrameMessagesAreDigitFree();
    StaleMessageIffStaleCode(MSG_PRESENT, s.presentResult);
  }

  /** No stale code: acquire, hook once with the acquired index, present of that
      index on the graphics queue; the engine (and so its swapchain) is unchanged,
      and the frame counts as rendered exactly when present returned VK_SUCCESS. */
  lemma FrameWithoutRecovery(e: Engine, s: FrameScript)
    requires s.acquireResult == VK_SUCCESS && !s.hookRaises && !IsStaleCode(s.presentResult)
    ensures var r := RenderFrame(e, s);
            && (r.rendered <==> s.presentResult == VK_SUCCESS)
            && r.engine == e
            && r.trace == [AcquireNextImage(e.device, e.swapchain, ACQUIRE_TIMEOUT),
                           CustomRender(s.imageIndex),
                           QueuePresent(e.graphicsQueue, PresentInfoFor(e.swapchain, s.imageIndex))]
  {
    FrameMessagesAreDigitFree();
    StaleMessageIffStaleCode(MSG_PRESENT, s.presentResult);
  }

  // The four parts a frame's trace is made of, each present or empty.
  function AcquirePart(e: Engine): seq<Call> {
    [AcquireNextImage(e.device, e.swapchain, ACQUIRE_TIMEOUT)]
  }

  function RenderPart(e: Engine, s: FrameScript): seq<Call> {
    if s.acquireResult == VK_SUCCESS then [CustomRender(s.imageIndex)] else []
  }

  function PresentPart(e: Engine, s: FrameScript): seq<Call> {
    if s.acquireResult == VK_SUCCESS && !s.hookRaises
    then [QueuePresent(e.graphicsQueue, PresentInfoFor(e.swapchain, s.imageIndex))] else []
  }

  function RecreatePart(e: Engine, s: FrameScript): seq<Call> {
    if Recovers(s)
    then [DeviceWaitIdle(e.device), DestroySwapchain(e.device, e.swapchain), CreateSwapchain(e.device, SwapchainInfo(e.surface))]
    else []
  }

  function FrameTrace(e: Engine, s: FrameScript): seq<Call> {
    AcquirePart(e) + RenderPart(e, s) + PresentPart(e, s) + RecreatePart(e, s)
  }

  /** Every frame's trace is: the acquire; the hook call if acquire succeeded;
      the present if the hook also returned; a recreation exactly when `Recovers`. */
  lemma FrameShape(e: Engine, s: FrameScript)
    ensures RenderFrame(e, s).trace == FrameTrace(e, s)
  {
    if IsStaleCode(s.acquireResult) {
      ShapeOfStaleAcquire(e, s);
    } else if s.acquireResult != VK_SUCCESS {
      ShapeOfFailedAcquire(e, s);
    } else if s.hookRaises {
      ShapeOfHookFailure(e, s);
    } else if IsStaleCode(s.presentResult) {
      ShapeOfStalePresent(e, s);
    } else {
      ShapeWithoutRecovery(e, s);
    }
  }

  // `FrameShape`, one scenario at a time.
  lemma ShapeOfStaleAcquire(e: Engine, s: FrameScript)
    requires IsStaleCode(s.acquireResult)
    ensures RenderFrame(e, s).trace == FrameTrace(e, s)
  {
    StaleAcquireRecreatesOnce(e, s);
  }

  lemma ShapeOfFailedAcquire(e: Engine, s: FrameScript)
    requires s.acquireResult != VK_SUCCESS && !IsStaleCode(s.acquireResult)
    ensures RenderFrame(e, s).trace == FrameTrace(e, s)
  {
    FailedAcquireSkipsFrame(e, s);
  }

  lemma ShapeOfHookFailure(e: Engine, s: FrameScript)
    requires s.acquireResult == VK_SUCCESS && s.hookRaises
    ensures RenderFrame(e, s).trace == FrameTrace(e, s)
  {
    HookFailureSkipsPresent(e, s);
    SuccessIsNotStale();
  }

  lemma ShapeOfStalePresent(e: Engine, s: FrameScript)
    requires s.acquireResult == VK_SUCCESS && !s.hookRaises && IsStaleCode(s.presentResult)
    ensures RenderFrame(e, s).trace == FrameTrace(e, s)
  {
    StalePresentRecreatesOnce(e, s);
  }

  lemma ShapeWithoutRecovery(e: Engine, s: FrameScript)
    requires s.acquireResult == VK_SUCCESS && !s.hookRaises && !IsStaleCode(s.presentResult)
    ensures RenderFrame(e, s).trace == FrameTrace(e, s)
  {
    FrameWithoutRecovery(e, s);
    SuccessIsNotStale();
  }

  /** Filtering a frame's trace filters each of its parts. */
  lemma FilterFrame(e: Engine, s: FrameScript, p: Call -> bool)
    ensures Filter(FrameTrace(e, s), p) ==
              Filter(AcquirePart(e), p) + Filter(RenderPart(e, s), p) + Filter(PresentPart(e, s), p) + Filter(RecreatePart(e, s), p)
  {
    var a, b, c, d := AcquirePart(e), RenderPart(e, s), PresentPart(e, s), RecreatePart(e, s);
    FilterConcat(a + b + c, d, p);
    FilterConcat(a + b, c, p);
    FilterConcat(a, b, p);
  }

  lemma FilterOne(c: Call, p: Call -> bool)
    ensures Filter([c], p) == if p(c) then [c] else []
  {
    assert [c][1..] == [];
  }

  /** What each predicate keeps of the parts: the recreation part holds one idle
      wait and one swapchain request, and no hook call or present. */
  lemma FilterRecreatePart(e: Engine, s: FrameScript, p: Call -> bool)
    requires Recovers(s)
    requires !p(DestroySwapchain(e.device, e.swapchain))
    ensures Filter(RecreatePart(e, s), p) ==
              Filter([DeviceWaitIdle(e.device)], p) + Filter([CreateSwapchain(e.device, SwapchainInfo(e.surface))], p)
  {
    var w, d, c := DeviceWaitIdle(e.device), DestroySwapchain(e.device, e.swapchain), CreateSwapchain(e.device, SwapchainInfo(e.surface));
    assert RecreatePart(e, s) == [w] + [d] + [c];
    FilterConcat([w] + [d], [c], p);
    FilterConcat([w], [d], p);
    FilterOne(d, p);
  }

  /** The hook runs exactly once, with the acquired index, when acquire succeeds,
      and never otherwise. */
  lemma HookCalledOnce(e: Engine, s: FrameScript)
    ensures Filter(RenderFrame(e, s).trace, IsRender) ==
              if s.acquireResult == VK_SUCCESS then [CustomRender(s.imageIndex)] else []
  {
    assert Filter(FrameTrace(e, s), IsRender) == if s.acquireResult == VK_SUCCESS then [CustomRender(s.imageIndex)] else [] by {
      FilterFrame(e, s, IsRender);
      FilterParts(e, s, IsRender);
    }
    FrameShape(e, s);
  }

  /** At most one present, of the acquired index, and only after the hook returned. */
  lemma PresentAtMostOnce(e: Engine, s: FrameScript)
    ensures Filter(RenderFrame(e, s).trace, IsPresent) ==
              if s.acquireResult == VK_SUCCESS && !s.hookRaises
              then [QueuePresent(e.graphicsQueue, PresentInfoFor(e.swapchain, s.imageIndex))] else []
  {
    assert Filter(FrameTrace(e, s), IsPresent) ==
             if s.acquireResult == VK_SUCCESS && !s.hookRaises
             then [QueuePresent(e.graphicsQueue, PresentInfoFor(e.swapchain, s.imageIndex))] else [] by {
      FilterFrame(e, s, IsPresent);
      FilterParts(e, s, IsPresent);
    }
    FrameShape(e, s);
  }

  /** Exactly one recreation (one idle wait, one swapchain request under the fixed
      policy) when `Recovers`, none otherwise. */
  lemma RecreationAtMostOnce(e: Engine, s: FrameScript)
    ensures Filter(RenderFrame(e, s).trace, IsWaitIdle) == if Recovers(s) then [DeviceWaitIdle(e.device)] else []
    ensures Filter(RenderFrame(e, s).trace, IsSwapchainRequest) ==
              if Recovers(s) then [CreateSwapchain(e.device, SwapchainInfo(e.surface))] else []
  {
    assert Filter(FrameTrace(e, s), IsWaitIdle) == if Recovers(s) then [DeviceWaitIdle(e.device)] else [] by {
      FilterFrame(e, s, IsWaitIdle);
      FilterParts(e, s, IsWaitIdle);
    }
    assert Filter(FrameTrace(e, s), IsSwapchainRequest) ==
             if Recovers(s) then [CreateSwapchain(e.device, SwapchainInfo(e.surface))] else [] by {
      FilterFrame(e, s, IsSwapchainRequest);
      FilterParts(e, s, IsSwapchainRequest);
    }
    FrameShape(e, s);
  }

  /** Each part filtered, for a predicate that keeps no destroy call. */
  lemma FilterParts(e: Engine, s: FrameScript, p: Call -> bool)
    requires !p(DestroySwapchain(e.device, e.swapchain))
    ensures Filter(AcquirePart(e), p) == if p(AcquireNextImage(e.device, e.swapchain, ACQUIRE_TIMEOUT)) then AcquirePart(e) else []
    ensures Filter(RenderPart(e, s), p) == if p(CustomRender(s.imageIndex)) then RenderPart(e, s) else []
    ensures Filter(PresentPart(e, s), p) ==
              if p(QueuePresent(e.graphicsQueue, PresentInfoFor(e.swapchain, s.imageIndex))) then PresentPart(e, s) else []
    ensures Filter(RecreatePart(e, s), p) ==
              (if Recovers(s) && p(DeviceWaitIdle(e.device)) then [DeviceWaitIdle(e.device)] else [])
              + (if Recovers(s) && p(CreateSwapchain(e.device, SwapchainInfo(e.surface))) then [CreateSwapchain(e.device, SwapchainInfo(e.surface))] else [])
  {
    FilterOne(AcquireNextImage(e.device, e.swapchain, ACQUIRE_TIMEOUT), p);
    FilterOne(CustomRender(s.imageIndex), p);
    FilterOne(QueuePresent(e.graphicsQueue, PresentInfoFor(e.swapchain, s.imageIndex)), p);
    if Recovers(s) {
      FilterRecreatePart(e, s, p);
      FilterOne(DeviceWaitIdle(e.device), p);
      FilterOne(CreateSwapchain(e.device, SwapchainInfo(e.surface)), p);
    }
  }

  /** The hook call precedes every present, and every destroy directly follows an
      idle wait on the same device. */
  lemma FrameOrdering(e: Engine, s: FrameScript)
    ensures var t := RenderFrame(e, s).trace;
            && (forall a, b :: 0 <= a < |t| && 0 <= b < |t| && t[a].CustomRender? && t[b].QueuePresent? ==> a < b)
            && DestroyAfterIdle(t)
  {
    FrameShape(e, s);
    PartsOrdering(e, s);
  }

  lemma PartsOrdering(e: Engine, s: FrameScript)
    ensures var t := FrameTrace(e, s);
            && (forall a, b :: 0 <= a < |t| && 0 <= b < |t| && t[a].CustomRender? && t[b].QueuePresent? ==> a < b)
            && DestroyAfterIdle(t)
  {
    var t := FrameTrace(e, s);
    var head := AcquirePart(e) + RenderPart(e, s) + PresentPart(e, s);
    HeadShape(e, s);
    if Recovers(s) {
      var k := |head|;
      assert t == head + RecreatePart(e, s);
      assert t[k] == DeviceWaitIdle(e.device);
      assert forall i :: k <= i < |t| ==> t[i] == RecreatePart(e, s)[i - k];
      assert forall i :: 0 <= i < |t| && t[i].DestroySwapchain? ==> i == k + 1;
    } else {
      assert t == head;
    }
  }

  /** The calls before any recreation: no destroy and no swapchain request, the
      hook call (if any) at index 1 and the present (if any) at index 2. */
  lemma HeadShape(e: Engine, s: FrameScript)
    ensures var head := AcquirePart(e) + RenderPart(e, s) + PresentPart(e, s);
            && 1 <= |head| <= 3
            && (forall i :: 0 <= i < |head| ==> !head[i].DestroySwapchain? && !head[i].CreateSwapchain?)
            && (forall i :: 0 <= i < |head| && head[i].QueuePresent? ==> i == 2)
            && (forall i :: 0 <= i < |head| && head[i].CustomRender? ==> i == 1)
  {
    var head := AcquirePart(e) + RenderPart(e, s) + PresentPart(e, s);
    var acquire := AcquireNextImage(e.device, e.swapchain, ACQUIRE_TIMEOUT);
    if s.acquireResult != VK_SUCCESS {
      assert head == [acquire];
    } else if s.hookRaises {
      assert head == [acquire, CustomRender(s.imageIndex)];
    } else {
      assert head == [acquire, CustomRender(s.imageIndex), QueuePresent(e.graphicsQueue, PresentInfoFor(e.swapchain, s.imageIndex))];
    }
  }

  /** VK_ERROR_OUT_OF_DATE_KHR from acquire does not lead to a recreation: its
      text does not contain the stale code's digits, so the frame is skipped
      with the engine and its swapchain untouched. */
  lemma OutOfDateIsNotRecovered(e: Engine, s: FrameScript)
    requires s.acquireResult == VK_ERROR_OUT_OF_DATE_KHR
    ensures RenderFrame(e, s) == Frame(e, [AcquireNextImage(e.device, e.swapchain, ACQUIRE_TIMEOUT)], false)
  {
    OutOfDateText();
    FailedAcquireSkipsFrame(e, s);
  }

  /** A recreation whose request fails leaves the destroyed handle stored: the
      frame destroys `e.swapchain`, yet the engine after it is `e` itself, so the
      next frame acquires from the destroyed handle and a second stale acquire
      destroys it again (`StaleAcquireRecreatesOnce` on the same engine). */
  lemma FailedRecreationKeepsDestroyedHandle(e: Engine, s: FrameScript)
    requires IsStaleCode(s.acquireResult) && s.recreate.result != VK_SUCCESS
    ensures RenderFrame(e, s).engine == e
    ensures |RenderFrame(e, s).trace| == 4 && RenderFrame(e, s).trace[2] == DestroySwapchain(e.device, e.swapchain)
  {
    StaleAcquireRecreatesOnce(e, s);
  }

  /** Every swapchain request in `t` is the fixed-policy request for `device` and `surface`. */
  predicate RequestsFollowPolicy(t: seq<Call>, device: Handle, surface: Handle) {
    forall i :: 0 <= i < |t| && t[i].CreateSwapchain? ==> t[i] == CreateSwapchain(device, SwapchainInfo(surface))
  }

  lemma RequestsFollowPolicyConcat(a: seq<Call>, b: seq<Call>, device: Handle, surface: Handle)
    requires RequestsFollowPolicy(a, device, surface) && RequestsFollowPolicy(b, device, surface)
    ensures RequestsFollowPolicy(a + b, device, surface)
  {
    var t := a + b;
    forall i | 0 <= i < |t| && t[i].CreateSwapchain?
      ensures t[i] == CreateSwapchain(device, SwapchainInfo(surface))
    {
      if i >= |a| {
        assert t[i] == b[i - |a|];
      } else {
        assert t[i] == a[i];
      }
    }
  }

  /** Every swapchain request of a frame is the fixed-policy request for the
      engine's device and surface. */
  lemma FrameRequestsFollowPolicy(e: Engine, s: FrameScript)
    ensures RequestsFollowPolicy(RenderFrame(e, s).trace, e.device, e.surface)
  {
    FrameShape(e, s);
    PartsFollowPolicy(e, s);
  }

  lemma PartsFollowPolicy(e: Engine, s: FrameScript)
    ensures RequestsFollowPolicy(FrameTrace(e, s), e.device, e.surface)
  {
    var head, d := AcquirePart(e) + RenderPart(e, s) + PresentPart(e, s), RecreatePart(e, s);
    HeadShape(e, s);
    assert RequestsFollowPolicy(head, e.device, e.surface);
    assert RequestsFollowPolicy(d, e.device, e.surface);
    RequestsFollowPolicyConcat(head, d, e.device, e.surface);
  }

  /** The outcome of calling `render_frame` once per script, in order. */
  datatype Run = Run(engine: Engine, trace: seq<Call>, rendered: seq<bool>)

  /** Frame `i` counts as rendered exactly when its acquire, hook and present all succeed. */
  predicate FrameSucceeds(s: FrameScript) {
    s.acquireResult == VK_SUCCESS && !s.hookRaises && s.presentResult == VK_SUCCESS
  }

  /** `a` holds every handle of `b` except, possibly, the swapchain. */
  predicate SameButSwapchain(a: Engine, b: Engine) {
    && a.hwnd == b.hwnd && a.hinstance == b.hinstance && a.instance == b.instance && a.surface == b.surface
    && a.physicalDevice == b.physicalDevice && a.physicalHandle == b.physicalHandle
    && a.graphicsQueueFamily == b.graphicsQueueFamily && a.device == b.device && a.graphicsQueue == b.graphicsQueue
  }

  /** Repeated `render_frame` calls on one engine, one result per call. */
  function RunFrames(e: Engine, scripts: seq<FrameScript>): (r: Run)
    ensures |r.rendered| == |scripts|
    decreases |scripts|
  {
    if |scripts| == 0 then Run(e, [], [])
    else
      var f := RenderFrame(e, scripts[0]);
      var rest := RunFrames(f.engine, scripts[1..]);
      Run(rest.engine, f.trace + rest.trace, [f.rendered] + rest.rendered)
  }

  /** Frame `i` of a run reports success exactly when its acquire, hook and
      present all succeed. */
  lemma {:induction false} RunReportsEachFrame(e: Engine, scripts: seq<FrameScript>)
    ensures forall i :: 0 <= i < |scripts| ==> (RunFrames(e, scripts).rendered[i] <==> FrameSucceeds(scripts[i]))
    decreases |scripts|
  {
    if |scripts| > 0 {
      var f := RenderFrame(e, scripts[0]);
      var rest := RunFrames(f.engine, scripts[1..]);
      RunReportsEachFrame(f.engine, scripts[1..]);
      var r := RunFrames(e, scripts);
      assert r.rendered == [f.rendered] + rest.rendered;
      forall i | 0 <= i < |scripts|
        ensures r.rendered[i] <==> FrameSucceeds(scripts[i])
      {
        if i > 0 {
          assert r.rendered[i] == rest.rendered[i - 1];
          assert scripts[1..][i - 1] == scripts[i];
        }
      }
    }
  }

  /** Over any run only the swapchain handle may change: the device, queue,
      surface and selection stay as constructed. */
  lemma {:induction false} RunKeepsDevice(e: Engine, scripts: seq<FrameScript>)
    ensures SameButSwapchain(RunFrames(e, scripts).engine, e)
    decreases |scripts|
  {
    if |scripts| > 0 {
      var f := RenderFrame(e, scripts[0]);
      assert SameButSwapchain(f.engine, e);
      RunKeepsDevice(f.engine, scripts[1..]);
    }
  }

  /** Frames that never recover leave the engine exactly as it was. */
  lemma {:induction false} RunWithoutRecoveryKeepsEngine(e: Engine, scripts: seq<FrameScript>)
    requires forall i :: 0 <= i < |scripts| ==> !Recovers(scripts[i])
    ensures RunFrames(e, scripts).engine == e
    decreases |scripts|
  {
    if |scripts| > 0 {
      var f := RenderFrame(e, scripts[0]);
      assert f.engine == e;
      assert forall i :: 0 <= i < |scripts[1..]| ==> scripts[1..][i] == scripts[i + 1];
      RunWithoutRecoveryKeepsEngine(e, scripts[1..]);
    }
  }

  /** Joining two traces keeps the destroy-after-idle discipline when the second
      does not open with a destroy. */
  lemma DestroyAfterIdleConcat(a: seq<Call>, b: seq<Call>)
    requires DestroyAfterIdle(a) && DestroyAfterIdle(b)
    requires |b| > 0 ==> !b[0].DestroySwapchain?
    ensures DestroyAfterIdle(a + b)
  {
    var t := a + b;
    forall i | 0 <= i < |t| && t[i].DestroySwapchain?
      ensures i > 0 && t[i - 1] == DeviceWaitIdle(t[i].device)
    {
      if i >= |a| {
        assert t[i] == b[i - |a|];
        assert t[i - 1] == b[i - |a| - 1];
      } else {
        assert t[i] == a[i] && t[i - 1] == a[i - 1];
      }
    }
  }

  /** Over any number of frames, every swapchain destruction directly follows an
      idle wait on the same device. */
  lemma {:induction false} RunDestroysAfterIdle(e: Engine, scripts: seq<FrameScript>)
    ensures DestroyAfterIdle(RunFrames(e, scripts).trace)
    decreases |scripts|
  {
    if |scripts| > 0 {
      var f := RenderFrame(e, scripts[0]);
      FrameOrdering(e, scripts[0]);
      RunDestroysAfterIdle(f.engine, scripts[1..]);
      var rest := RunFrames(f.engine, scripts[1..]);
      if |scripts[1..]| > 0 {
        assert rest.trace == RenderFrame(f.engine, scripts[1..][0]).trace + RunFrames(RenderFrame(f.engine, scripts[1..][0]).engine, scripts[1..][1..]).trace;
      }
      DestroyAfterIdleConcat(f.trace, rest.trace);
    }
  }

  /** Over any number of frames, every swapchain request is the same fixed-policy
      request for the engine's device and surface. */
  lemma {:induction false} RunRequestsFollowPolicy(e: Engine, scripts: seq<FrameScript>)
    ensures RequestsFollowPolicy(RunFrames(e, scripts).trace, e.device, e.surface)
    decreases |scripts|
  {
    if |scripts| > 0 {
      var f := RenderFrame(e, scripts[0]);
      FrameRequestsFollowPolicy(e, scripts[0]);
      RunRequestsFollowPolicy(f.engine, scripts[1..]);
      assert f.engine.device == e.device && f.engine.surface == e.surface;
      RequestsFollowPolicyConcat(f.trace, RunFrames(f.engine, scripts[1..]).trace, e.device, e.surface);
    }
  }

  /** For a constructed engine, every recreation during any run of frames issues
      exactly the swapchain request construction issued last. */
  lemma RecreationRepeatsConstructionRequest(hwnd: Handle, hinstance: Handle, s: InitScript, scripts: seq<FrameScript>)
    requires Construct(hwnd, hinstance, s).result.Ok?
    ensures var c := Construct(hwnd, hinstance, s);
            var t := RunFrames(c.result.value, scripts).trace;
            forall i :: 0 <= i < |t| && t[i].CreateSwapchain? ==> t[i] == c.trace[|c.trace| - 1]
  {
    ConstructSwapchainPolicy(hwnd, hinstance, s);
    RunRequestsFollowPolicy(Construct(hwnd, hinstance, s).result.value, scripts);
  }
}
