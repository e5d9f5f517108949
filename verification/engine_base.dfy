/** Construction of the engine: instance, Win32 surface, device and queue-family
    selection, logical device and graphics queue, swapchain — in that order, each
    step raising a RuntimeError that aborts construction when its call fails.
    The driver's answers are given as a script; the calls issued are the trace. */
module EngineBase {
  import opened Wrappers
  import opened Strings
  import opened Vulkan
  import opened Selection

  /** What the driver answers during construction, in call order. */
  datatype InitScript = InitScript(
    instance: Native,
    surface: Native,
    devices: seq<PhysicalDevice>,
    device: Native,
    queue: Handle,
    swapchain: Native)

  /** A constructed engine: every handle it holds. */
  datatype Engine = Engine(
    hwnd: Handle,
    hinstance: Handle,
    instance: Handle,
    surface: Handle,
    physicalDevice: nat,
    physicalHandle: Handle,
    graphicsQueueFamily: nat,
    device: Handle,
    graphicsQueue: Handle,
    swapchain: Handle)

  /** A value, or the RuntimeError raised instead. */
  datatype Outcome<+T> = Ok(value: T) | Raised(error: RuntimeError)

  datatype Construction = Construction(result: Outcome<Engine>, trace: seq<Call>)

  /** A creating step: its outcome and the calls it issued. */
  datatype Step<+T> = Step(result: Outcome<T>, trace: seq<Call>)

  datatype DeviceHandles = DeviceHandles(device: Handle, queue: Handle)

  /** The instance request of `_create_instance`. */
  function InstanceInfo(): (info: InstanceCreateInfo)
    ensures info.sType == VK_STRUCTURE_TYPE_INSTANCE_CREATE_INFO
    ensures |info.enabledExtensions| == 3
    ensures VK_KHR_SURFACE_EXTENSION_NAME in info.enabledExtensions
    ensures VK_KHR_WIN32_SURFACE_EXTENSION_NAME in info.enabledExtensions
    ensures VK_EXT_DEBUG_UTILS_EXTENSION_NAME in info.enabledExtensions
  {
    InstanceCreateInfo(
      VK_STRUCTURE_TYPE_INSTANCE_CREATE_INFO,
      [VK_KHR_SURFACE_EXTENSION_NAME, VK_KHR_WIN32_SURFACE_EXTENSION_NAME, VK_EXT_DEBUG_UTILS_EXTENSION_NAME])
  }

  /** `_prepare_surface_info`: a Win32 surface bound to the engine's window. */
  function SurfaceInfo(hwnd: Handle, hinstance: Handle): (info: SurfaceCreateInfo)
    ensures info.sType == VK_STRUCTURE_TYPE_WIN32_SURFACE_CREATE_INFO_KHR
    ensures info.hwnd == hwnd && info.hinstance == hinstance
  {
    SurfaceCreateInfo(VK_STRUCTURE_TYPE_WIN32_SURFACE_CREATE_INFO_KHR, hwnd, hinstance)
  }

  /** `_get_device_extensions`: the swapchain extension alone, which is none of
      the instance's extensions. */
  function DeviceExtensions(): (r: seq<string>)
    ensures |r| == 1 && VK_KHR_SWAPCHAIN_EXTENSION_NAME in r
    ensures forall x :: x in r ==> x !in InstanceInfo().enabledExtensions
  {
    [VK_KHR_SWAPCHAIN_EXTENSION_NAME]
  }

  /** `_prepare_device_info`: the selected family index stands as the single
      queue-create entry, beside the extension list. */
  function DeviceInfo(family: nat, extensions: seq<string>): (info: DeviceCreateInfo)
    ensures info.sType == DEVICE_REQUEST_STYPE_AS_PASSED
    ensures info.queueCreateInfoCount == |info.queueFamilies| == 1 && info.queueFamilies[0] == family
    ensures info.enabledExtensionCount == |info.enabledExtensions| && info.enabledExtensions == extensions
  {
    DeviceCreateInfo(DEVICE_REQUEST_STYPE_AS_PASSED, 1, [family], |extensions|, extensions)
  }

  /** The fixed swapchain policy: triple buffering, B8G8R8A8_SRGB, 800x600, one
      layer, colour attachment, exclusive sharing, pre-transform 0, opaque
      alpha, FIFO presentation, clipped. */
  ghost predicate FixedSwapchainPolicy(info: SwapchainCreateInfo, surface: Handle) {
    && info.sType == 1000001000
    && info.surface == surface
    && info.minImageCount == 3
    && info.imageFormat == 50
    && info.imageExtent == Extent(800, 600)
    && info.imageArrayLayers == 1
    && info.imageUsage == 0x10
    && info.imageSharingMode == 0
    && info.preTransform == 0
    && info.compositeAlpha == 1
    && info.presentMode == 2
    && info.clipped == 1
  }

  /** `_prepare_swapchain_info`: depends on nothing but the surface. */
  function SwapchainInfo(surface: Handle): (info: SwapchainCreateInfo)
    ensures FixedSwapchainPolicy(info, surface)
  {
    SwapchainCreateInfo(
      VK_STRUCTURE_TYPE_SWAPCHAIN_CREATE_INFO_KHR,
      surface,
      3,
      VK_FORMAT_B8G8R8A8_SRGB,
      Extent(800, 600),
      1,
      VK_IMAGE_USAGE_COLOR_ATTACHMENT_BIT,
      VK_SHARING_MODE_EXCLUSIVE,
      PRE_TRANSFORM_AS_PASSED,
      VK_COMPOSITE_ALPHA_OPAQUE_BIT_KHR,
      VK_PRESENT_MODE_FIFO_KHR,
      1)
  }

  /** `_create_device` followed by `_get_graphics_queue`: the queue (index 0 of
      the selected family) is fetched only once the device exists. */
  function BuildDevice(physicalDevice: nat, family: nat, reply: Native, queue: Handle): (r: Step<DeviceHandles>)
    ensures |r.trace| >= 1
    ensures r.trace[0] == CreateDevice(physicalDevice, DeviceCreateInfo(DEVICE_REQUEST_STYPE_AS_PASSED, 1, [family], 1, [VK_KHR_SWAPCHAIN_EXTENSION_NAME]))
    ensures r.result.Ok? <==> reply.result == VK_SUCCESS
    ensures r.result.Ok? ==>
              r.result.value == DeviceHandles(reply.handle, queue)
              && r.trace == [r.trace[0], GetDeviceQueue(reply.handle, family, 0)]
    ensures r.result.Raised? ==> |r.trace| == 1 && Reports(r.result.error, MSG_CREATE_DEVICE, reply.result)
  {
    var create := CreateDevice(physicalDevice, DeviceInfo(family, DeviceExtensions()));
    match CheckVkResult(reply.result, MSG_CREATE_DEVICE)
    case Some(err) => Step(Raised(err), [create])
    case None => Step(Ok(DeviceHandles(reply.handle, queue)), [create, GetDeviceQueue(reply.handle, family, 0)])
  }

  /** `_create_swapchain`: one create request under the fixed policy; the new
      handle is kept only when the call returns VK_SUCCESS. */
  function BuildSwapchain(device: Handle, surface: Handle, reply: Native): (r: Step<Handle>)
    ensures |r.trace| == 1 && r.trace[0].CreateSwapchain? && r.trace[0].device == device
    ensures FixedSwapchainPolicy(r.trace[0].swapchainInfo, surface)
    ensures r.result.Ok? <==> reply.result == VK_SUCCESS
    ensures r.result.Ok? ==> r.result.value == reply.handle
    ensures r.result.Raised? ==> Reports(r.result.error, MSG_CREATE_SWAPCHAIN, reply.result)
  {
    var create := CreateSwapchain(device, SwapchainInfo(surface));
    match CheckVkResult(reply.result, MSG_CREATE_SWAPCHAIN)
    case Some(err) => Step(Raised(err), [create])
    case None => Step(Ok(reply.handle), [create])
  }

  /** The calls of an earlier stage come before those of a later one. */
  function After(t: seq<Call>, r: Construction): (r': Construction)
    ensures r'.result == r.result && r'.trace == t + r.trace
  {
    Construction(r.result, t + r.trace)
  }

  /** `EngineBase.__init__`: instance, then surface, then `_select_physical_device`. */
  function Construct(hwnd: Handle, hinstance: Handle, s: InitScript): (r: Construction)
    ensures |r.trace| >= 1 && r.trace[0] == CreateInstance(InstanceInfo())
    ensures r.result.Ok? ==>
              && s.instance.result == VK_SUCCESS && s.surface.result == VK_SUCCESS
              && r.result.value.hwnd == hwnd && r.result.value.hinstance == hinstance
              && r.result.value.instance == s.instance.handle
              && r.result.value.surface == s.surface.handle
    ensures s.instance.result != VK_SUCCESS ==>
              && r.result.Raised? && Reports(r.result.error, MSG_CREATE_INSTANCE, s.instance.result)
              && r.trace == [CreateInstance(InstanceInfo())]
  {
    var t0 := [CreateInstance(InstanceInfo())];
    if s.instance.result != VK_SUCCESS then
      Construction(Raised(RuntimeError(FailureMessage(MSG_CREATE_INSTANCE, s.instance.result))), t0)
    else
      After(t0, SurfaceOnward(hwnd, hinstance, s))
  }

  /** A failed surface request ends construction after exactly the instance and
      surface requests, raising a RuntimeError that reports the surface result. */
  lemma SurfaceFailureStopsConstruction(hwnd: Handle, hinstance: Handle, s: InitScript)
    requires s.instance.result == VK_SUCCESS && s.surface.result != VK_SUCCESS
    ensures var r := Construct(hwnd, hinstance, s);
            && r.result.Raised? && Reports(r.result.error, MSG_CREATE_SURFACE, s.surface.result)
            && r.trace == [CreateInstance(InstanceInfo()), CreateWin32Surface(s.instance.handle, SurfaceInfo(hwnd, hinstance))]
  {
    var t1 := [CreateWin32Surface(s.instance.handle, SurfaceInfo(hwnd, hinstance))];
    assert SurfaceOnward(hwnd, hinstance, s).trace == t1;
  }

  /** `_create_surface` on the created instance, then `_select_physical_device`. */
  function SurfaceOnward(hwnd: Handle, hinstance: Handle, s: InitScript): (r: Construction)
    ensures |r.trace| >= 1 && r.trace[0] == CreateWin32Surface(s.instance.handle, SurfaceInfo(hwnd, hinstance))
    ensures r.result.Ok? ==>
              && s.surface.result == VK_SUCCESS
              && r.result.value.hwnd == hwnd && r.result.value.hinstance == hinstance
              && r.result.value.instance == s.instance.handle
              && r.result.value.surface == s.surface.handle
    ensures s.surface.result != VK_SUCCESS ==>
              && r.result.Raised? && Reports(r.result.error, MSG_CREATE_SURFACE, s.surface.result)
              && r.trace == [CreateWin32Surface(s.instance.handle, SurfaceInfo(hwnd, hinstance))]
  {
    var t1 := [CreateWin32Surface(s.instance.handle, SurfaceInfo(hwnd, hinstance))];
    match CheckVkResult(s.surface.result, MSG_CREATE_SURFACE)
    case Some(err) => Construction(Raised(err), t1)
    case None => After(t1, SelectPhysicalDevice(hwnd, hinstance, s))
  }

  /** `_select_physical_device` (with `_enumerate_physical_devices`): no device
      reported raises at once; otherwise the first suitable pair is taken and the
      device and swapchain are created for it. */
  function SelectPhysicalDevice(hwnd: Handle, hinstance: Handle, s: InitScript): (r: Construction)
    ensures |r.trace| >= 1 && r.trace[0] == EnumeratePhysicalDevices(s.instance.handle)
    ensures r.result.Ok? ==>
              && r.result.value.hwnd == hwnd && r.result.value.hinstance == hinstance
              && r.result.value.instance == s.instance.handle
              && r.result.value.surface == s.surface.handle
  {
    var t := [EnumeratePhysicalDevices(s.instance.handle)];
    if |s.devices| == 0 then
      Construction(Raised(RuntimeError(MSG_NO_PHYSICAL_DEVICE)), t)
    else
      var search := SelectQueueFamily(s.devices, s.surface.handle);
      match search.choice
      case None => Construction(Raised(RuntimeError(MSG_NO_QUEUE_FAMILY)), t + search.trace)
      case Some(c) => After(t + search.trace, SetUpDevice(hwnd, hinstance, s, c))
  }

  /** `_create_device` then `_create_swapchain` for the selected pair. */
  function SetUpDevice(hwnd: Handle, hinstance: Handle, s: InitScript, c: Choice): (r: Construction)
    requires c.device < |s.devices|
    ensures r.result.Ok? <==> s.device.result == VK_SUCCESS && s.swapchain.result == VK_SUCCESS
    ensures r.result.Ok? ==>
              r.result.value == Engine(hwnd, hinstance, s.instance.handle, s.surface.handle, c.device,
                                       s.devices[c.device].handle, c.family, s.device.handle, s.queue,
                                       s.swapchain.handle)
    ensures |r.trace| >= 1
    ensures r.trace[0] == CreateDevice(c.device, DeviceCreateInfo(2, 1, [c.family], 1, ["VK_KHR_swapchain"]))
    ensures s.device.result == VK_SUCCESS ==>
              |r.trace| == 3 && r.trace[1] == GetDeviceQueue(s.device.handle, c.family, 0)
              && r.trace[2] == CreateSwapchain(s.device.handle, SwapchainInfo(s.surface.handle))
    ensures s.device.result != VK_SUCCESS ==> |r.trace| == 1
  {
    var dev := BuildDevice(c.device, c.family, s.device, s.queue);
    match dev.result
    case Raised(err) => Construction(Raised(err), dev.trace)
    case Ok(handles) =>
      var sc := BuildSwapchain(handles.device, s.surface.handle, s.swapchain);
      match sc.result
      case Raised(err) => Construction(Raised(err), dev.trace + sc.trace)
      case Ok(swapchain) =>
        Construction(
          Ok(Engine(hwnd, hinstance, s.instance.handle, s.surface.handle, c.device, s.devices[c.device].handle,
                    c.family, handles.device, handles.queue, swapchain)),
          dev.trace + sc.trace)
  }

  /** No logical device and no swapchain was requested. */
  predicate NothingCreated(t: seq<Call>) {
    forall i :: 0 <= i < |t| ==> !t[i].CreateDevice? && !t[i].CreateSwapchain?
  }

  /** No queue family was inspected. */
  predicate NothingQueried(t: seq<Call>) {
    forall i :: 0 <= i < |t| ==> !IsQuery(t[i])
  }

  /** The trace of a construction that got past the surface. */
  lemma ConstructTrace(hwnd: Handle, hinstance: Handle, s: InitScript)
    requires s.instance.result == VK_SUCCESS && s.surface.result == VK_SUCCESS
    ensures Construct(hwnd, hinstance, s) ==
              After([CreateInstance(InstanceInfo()), CreateWin32Surface(s.instance.handle, SurfaceInfo(hwnd, hinstance))],
                    SelectPhysicalDevice(hwnd, hinstance, s))
  {
  }

  /** A failed instance or surface request stops construction before any
      queue-family query, device creation or swapchain creation. */
  lemma EarlyFailureCreatesNothing(hwnd: Handle, hinstance: Handle, s: InitScript)
    requires s.instance.result != VK_SUCCESS || s.surface.result != VK_SUCCESS
    ensures var r := Construct(hwnd, hinstance, s);
            r.result.Raised? && NothingQueried(r.trace) && NothingCreated(r.trace)
  {
    if s.instance.result != VK_SUCCESS {
      InstanceFailureStopsConstruction(hwnd, hinstance, s);
    } else {
      SurfaceFailureStopsConstruction(hwnd, hinstance, s);
    }
  }

  /** A failed instance request ends construction after that one request. */
  lemma InstanceFailureStopsConstruction(hwnd: Handle, hinstance: Handle, s: InitScript)
    requires s.instance.result != VK_SUCCESS
    ensures var r := Construct(hwnd, hinstance, s);
            r.result.Raised? && NothingQueried(r.trace) && NothingCreated(r.trace)
  {
  }

  /** Zero physical devices: construction fails before any queue-family query,
      device creation or swapchain creation. */
  lemma ZeroDevicesFailEarly(hwnd: Handle, hinstance: Handle, s: InitScript)
    requires |s.devices| == 0
    ensures var r := Construct(hwnd, hinstance, s);
            && r.result.Raised?
            && NothingQueried(r.trace) && NothingCreated(r.trace)
            && (s.instance.result == VK_SUCCESS && s.surface.result == VK_SUCCESS ==>
                  r.result.error.message == MSG_NO_PHYSICAL_DEVICE)
  {
    if s.instance.result != VK_SUCCESS || s.surface.result != VK_SUCCESS {
      EarlyFailureCreatesNothing(hwnd, hinstance, s);
    } else {
      ConstructTrace(hwnd, hinstance, s);
    }
  }

  /** The selection search issues queries only. */
  lemma SearchCreatesNothing(devices: seq<PhysicalDevice>, surface: Handle)
    ensures NothingCreated(SelectQueueFamily(devices, surface).trace)
  {
    var t := SelectQueueFamily(devices, surface).trace;
    forall i | 0 <= i < |t|
      ensures !t[i].CreateDevice? && !t[i].CreateSwapchain?
    {
      assert IsQuery(t[i]);
    }
  }

  /** Devices exist but no pair qualifies: construction fails with the
      no-suitable-family error and creates neither a device nor a swapchain. */
  lemma NoSuitableFamilyFails(hwnd: Handle, hinstance: Handle, s: InitScript)
    requires |s.devices| > 0 && NoneSuitable(s.devices)
    ensures var r := Construct(hwnd, hinstance, s);
            && r.result.Raised?
            && NothingCreated(r.trace)
            && (s.instance.result == VK_SUCCESS && s.surface.result == VK_SUCCESS ==>
                  r.result.error.message == MSG_NO_QUEUE_FAMILY)
  {
    if s.instance.result != VK_SUCCESS || s.surface.result != VK_SUCCESS {
      EarlyFailureCreatesNothing(hwnd, hinstance, s);
    } else {
      ConstructTrace(hwnd, hinstance, s);
      SearchCreatesNothing(s.devices, s.surface.handle);
      var search := SelectQueueFamily(s.devices, s.surface.handle);
      var r := Construct(hwnd, hinstance, s);
      assert r.trace == [CreateInstance(InstanceInfo()), CreateWin32Surface(s.instance.handle, SurfaceInfo(hwnd, hinstance)),
                         EnumeratePhysicalDevices(s.instance.handle)] + search.trace;
    }
  }

  /** Construction succeeds exactly when every native call succeeds and some
      (device, family) pair qualifies. */
  lemma ConstructSucceedsIff(hwnd: Handle, hinstance: Handle, s: InitScript)
    ensures Construct(hwnd, hinstance, s).result.Ok? <==>
              && s.instance.result == VK_SUCCESS
              && s.surface.result == VK_SUCCESS
              && |s.devices| > 0
              && !NoneSuitable(s.devices)
              && s.device.result == VK_SUCCESS
              && s.swapchain.result == VK_SUCCESS
  {
    if s.instance.result != VK_SUCCESS {
    } else if s.surface.result != VK_SUCCESS {
      SurfaceFailureStopsConstruction(hwnd, hinstance, s);
    } else {
      ConstructTrace(hwnd, hinstance, s);
    }
  }

  /** A constructed engine holds the first suitable pair in enumeration order,
      the handle of that physical device, and the handles the driver returned. */
  lemma ConstructSelectsFirstSuitable(hwnd: Handle, hinstance: Handle, s: InitScript)
    requires Construct(hwnd, hinstance, s).result.Ok?
    ensures var e := Construct(hwnd, hinstance, s).result.value;
            && IsFirstSuitable(s.devices, Choice(e.physicalDevice, e.graphicsQueueFamily))
            && e.physicalHandle == s.devices[e.physicalDevice].handle
            && e.device == s.device.handle && e.graphicsQueue == s.queue && e.swapchain == s.swapchain.handle
  {
    ConstructTrace(hwnd, hinstance, s);
  }

  /** The calls issued up to and including the selection search. */
  function SetupPrefix(hwnd: Handle, hinstance: Handle, s: InitScript): seq<Call> {
    [CreateInstance(InstanceInfo()),
     CreateWin32Surface(s.instance.handle, SurfaceInfo(hwnd, hinstance)),
     EnumeratePhysicalDevices(s.instance.handle)]
    + SelectQueueFamily(s.devices, s.surface.handle).trace
  }

  /** Once a pair is selected, the construction trace is the creation-free
      prefix of instance, surface, enumeration and queries, followed by the
      device step for exactly that pair (see `SetUpDevice`). */
  lemma DeviceSetup(hwnd: Handle, hinstance: Handle, s: InitScript, c: Choice)
    requires s.instance.result == VK_SUCCESS && s.surface.result == VK_SUCCESS && |s.devices| > 0
    requires SelectQueueFamily(s.devices, s.surface.handle).choice == Some(c)
    ensures c.device < |s.devices|
    ensures Construct(hwnd, hinstance, s).trace == SetupPrefix(hwnd, hinstance, s) + SetUpDevice(hwnd, hinstance, s, c).trace
    ensures NothingCreated(SetupPrefix(hwnd, hinstance, s))
  {
    var t1 := [CreateInstance(InstanceInfo()), CreateWin32Surface(s.instance.handle, SurfaceInfo(hwnd, hinstance))];
    var t2 := [EnumeratePhysicalDevices(s.instance.handle)] + SelectQueueFamily(s.devices, s.surface.handle).trace;
    var setup := SetUpDevice(hwnd, hinstance, s, c).trace;
    ConstructTrace(hwnd, hinstance, s);
    SelectionTrace(hwnd, hinstance, s, c);
    ConcatAssociative(t1, t2, setup);
    assert SetupPrefix(hwnd, hinstance, s) == t1 + t2;
    PrefixCreatesNothing(hwnd, hinstance, s);
  }

  lemma ConcatAssociative(a: seq<Call>, b: seq<Call>, c: seq<Call>)
    ensures a + (b + c) == (a + b) + c
  {
  }

  lemma SelectionTrace(hwnd: Handle, hinstance: Handle, s: InitScript, c: Choice)
    requires |s.devices| > 0
    requires SelectQueueFamily(s.devices, s.surface.handle).choice == Some(c)
    ensures c.device < |s.devices|
    ensures SelectPhysicalDevice(hwnd, hinstance, s).trace ==
              [EnumeratePhysicalDevices(s.instance.handle)] + SelectQueueFamily(s.devices, s.surface.handle).trace
              + SetUpDevice(hwnd, hinstance, s, c).trace
  {
  }

  lemma PrefixCreatesNothing(hwnd: Handle, hinstance: Handle, s: InitScript)
    ensures NothingCreated(SetupPrefix(hwnd, hinstance, s))
  {
    var p := SetupPrefix(hwnd, hinstance, s);
    var search := SelectQueueFamily(s.devices, s.surface.handle);
    SearchCreatesNothing(s.devices, s.surface.handle);
    forall i | 0 <= i < |p|
      ensures !p[i].CreateDevice? && !p[i].CreateSwapchain?
    {
      if i >= 3 {
        assert p[i] == search.trace[i - 3];
      }
    }
  }

  /** The one swapchain request of a successful construction is the last call and
      follows the fixed policy for the engine's surface. */
  lemma ConstructSwapchainPolicy(hwnd: Handle, hinstance: Handle, s: InitScript)
    requires Construct(hwnd, hinstance, s).result.Ok?
    ensures var r := Construct(hwnd, hinstance, s);
            && r.trace[|r.trace| - 1] == CreateSwapchain(r.result.value.device, SwapchainInfo(r.result.value.surface))
            && FixedSwapchainPolicy(r.trace[|r.trace| - 1].swapchainInfo, r.result.value.surface)
  {
    ConstructTrace(hwnd, hinstance, s);
  }
}
