/** The slice of the Vulkan API the engine drives: result codes, the fixed
    create-info records it fills in, the API calls it issues (recorded as trace
    events) and the result check that turns a non-success code into a
    RuntimeError. Native handles are opaque integers chosen by the driver. */
module Vulkan {
  import opened Strings
  import opened Wrappers

  type Handle = int

  const VK_SUCCESS: int := 0
  const VK_STRUCTURE_TYPE_INSTANCE_CREATE_INFO: int := 1
  /** The sType the engine puts in its device request. Its constant is named
      after VK_STRUCTURE_TYPE_DEVICE_CREATE_INFO, which is 3 in the Vulkan
      specification; 2 is VK_STRUCTURE_TYPE_DEVICE_QUEUE_CREATE_INFO. */
  const DEVICE_REQUEST_STYPE_AS_PASSED: int := 2
  const VK_STRUCTURE_TYPE_WIN32_SURFACE_CREATE_INFO_KHR: int := 1000009000
  const VK_STRUCTURE_TYPE_SWAPCHAIN_CREATE_INFO_KHR: int := 1000001000
  const VK_STRUCTURE_TYPE_PRESENT_INFO_KHR: int := 1000001001
  const VK_QUEUE_GRAPHICS_BIT: bv32 := 0x1
  const VK_FORMAT_B8G8R8A8_SRGB: int := 50
  const VK_PRESENT_MODE_FIFO_KHR: int := 2
  const VK_IMAGE_USAGE_COLOR_ATTACHMENT_BIT: nat := 0x10
  const VK_SHARING_MODE_EXCLUSIVE: int := 0
  /** The pre-transform the engine passes. Its comment names it the identity
      transform, whose bit VK_SURFACE_TRANSFORM_IDENTITY_BIT_KHR is 1 in the
      Vulkan specification; 0 names no transform bit. */
  const PRE_TRANSFORM_AS_PASSED: int := 0
  const VK_COMPOSITE_ALPHA_OPAQUE_BIT_KHR: int := 1
  /** The acquire timeout, UINT64_MAX: wait without bound. */
  const ACQUIRE_TIMEOUT: nat := 0xFFFF_FFFF_FFFF_FFFF

  /** VkResult values named by the Vulkan specification's VK_KHR_swapchain
      extension; the engine's recovery test matches the text of the first. */
  const VK_SUBOPTIMAL_KHR: int := 1000001003
  const VK_ERROR_OUT_OF_DATE_KHR: int := -1000001004

  const VK_KHR_SURFACE_EXTENSION_NAME: string := "VK_KHR_surface"
  const VK_KHR_WIN32_SURFACE_EXTENSION_NAME: string := "VK_KHR_win32_surface"
  const VK_KHR_SWAPCHAIN_EXTENSION_NAME: string := "VK_KHR_swapchain"
  const VK_EXT_DEBUG_UTILS_EXTENSION_NAME: string := "VK_EXT_debug_utils"

  // Prefixes of the RuntimeError messages the engine raises.
  const MSG_CREATE_INSTANCE: string := "创建Vulkan实例失败"
  const MSG_CREATE_SURFACE: string := "创建Vulkan表面失败"
  const MSG_NO_PHYSICAL_DEVICE: string := "未找到支持Vulkan的物理设备"
  const MSG_NO_QUEUE_FAMILY: string := "未找到支持图形和呈现的队列族"
  const MSG_CREATE_DEVICE: string := "创建逻辑设备失败"
  const MSG_CREATE_SWAPCHAIN: string := "创建交换链失败"
  const MSG_ACQUIRE: string := "获取下一帧图像失败"
  const MSG_PRESENT: string := "呈现图像失败"

  /** The text whose presence in an exception message triggers swapchain recreation. */
  const STALE_TEXT: string := "1000001003"

  datatype InstanceCreateInfo = InstanceCreateInfo(sType: int, enabledExtensions: seq<string>)

  datatype SurfaceCreateInfo = SurfaceCreateInfo(sType: int, hwnd: Handle, hinstance: Handle)

  /** The device request as the engine fills it: the sType it passes, a
      queue-create count of 1 whose entry is the bare family index (where Vulkan
      expects a VkDeviceQueueCreateInfo record), and the extension list with
      its count. */
  datatype DeviceCreateInfo = DeviceCreateInfo(
    sType: int,
    queueCreateInfoCount: nat,
    queueFamilies: seq<nat>,
    enabledExtensionCount: nat,
    enabledExtensions: seq<string>)

  datatype Extent = Extent(width: nat, height: nat)

  datatype SwapchainCreateInfo = SwapchainCreateInfo(
    sType: int,
    surface: Handle,
    minImageCount: nat,
    imageFormat: int,
    imageExtent: Extent,
    imageArrayLayers: nat,
    imageUsage: nat,
    imageSharingMode: int,
    preTransform: int,
    compositeAlpha: int,
    presentMode: int,
    clipped: nat)

  datatype PresentInfo = PresentInfo(sType: int, swapchainCount: nat, swapchains: seq<Handle>, imageIndices: seq<nat>)

  /** One call into the graphics API (or into the render hook), in issue order. */
  datatype Call =
    | CreateInstance(instanceInfo: InstanceCreateInfo)
    | CreateWin32Surface(instance: Handle, surfaceInfo: SurfaceCreateInfo)
    | EnumeratePhysicalDevices(instance: Handle)
    | GetQueueFamilyProperties(physicalDevice: nat)
    | GetSurfaceSupport(physicalDevice: nat, family: nat, surface: Handle)
    | CreateDevice(physicalDevice: nat, deviceInfo: DeviceCreateInfo)
    | GetDeviceQueue(device: Handle, family: nat, queueIndex: nat)
    | CreateSwapchain(device: Handle, swapchainInfo: SwapchainCreateInfo)
    | AcquireNextImage(device: Handle, swapchain: Handle, timeout: nat)
    | CustomRender(imageIndex: nat)
    | QueuePresent(queue: Handle, presentInfo: PresentInfo)
    | DeviceWaitIdle(device: Handle)
    | DestroySwapchain(device: Handle, swapchain: Handle)

  /** A Python RuntimeError; only its message text is observable. */
  datatype RuntimeError = RuntimeError(message: string)

  /** What a creating call reports: its result code and, on success, the new handle. */
  datatype Native = Native(result: int, handle: Handle)

  /** The error's text is `prefix`, ": ", then the text `str` writes for `result`. */
  predicate Reports(e: RuntimeError, prefix: string, result: int) {
    && |e.message| > |prefix| + 2
    && e.message[..|prefix|] == prefix
    && e.message[|prefix|..|prefix| + 2] == ": "
    && IsCanonicalDecimal(e.message[|prefix| + 2..])
    && ParseInt(e.message[|prefix| + 2..]) == result
  }

  /** The text of a RuntimeError raised for a failing call. */
  function FailureMessage(prefix: string, result: int): (m: string)
    ensures Reports(RuntimeError(m), prefix, result)
  {
    var m := prefix + ": " + IntToString(result);
    assert m[|prefix| + 2..] == IntToString(result);
    IntToStringRoundTrip(result);
    m
  }

  /** `Reports` leaves no freedom: the only error reporting `result` under
      `prefix` is the one `_check_vk_result` raises. */
  lemma ReportsDeterminesMessage(e: RuntimeError, prefix: string, result: int)
    requires Reports(e, prefix, result)
    ensures e.message == FailureMessage(prefix, result)
  {
    var m := e.message;
    CanonicalDecimalIsIntToString(m[|prefix| + 2..], result);
    assert m == m[..|prefix|] + m[|prefix|..|prefix| + 2] + m[|prefix| + 2..];
  }

  /** `_check_vk_result`: no error on VK_SUCCESS; otherwise a RuntimeError whose
      text starts with the prefix and from which the result code can be read back. */
  function CheckVkResult(result: int, prefix: string): (r: Option<RuntimeError>)
    ensures r.None? <==> result == VK_SUCCESS
    ensures r.Some? ==> Reports(r.value, prefix, result)
  {
    if result == VK_SUCCESS then None
    else Some(RuntimeError(FailureMessage(prefix, result)))
  }

  /** The recovery test of the frame loop: `"1000001003" in str(e)`, which holds
      exactly when the text occurs at some position of the message. */
  predicate IsStale(e: RuntimeError)
    ensures IsStale(e) <==> exists i: nat :: OccursAt(e.message, STALE_TEXT, i)
  {
    ContainsIffOccurs(e.message, STALE_TEXT);
    Contains(e.message, STALE_TEXT)
  }

  /** The same test read on the result code alone. */
  predicate IsStaleCode(result: int) {
    Contains(IntToString(result), STALE_TEXT)
  }

  /** A message prefix that cannot hold or start an occurrence of STALE_TEXT. */
  predicate DigitFree(prefix: string) {
    forall k :: 0 <= k < |prefix| ==> prefix[k] != STALE_TEXT[0]
  }

  /** For a prefix without the digit 1, the message-level test on a failure
      message is exactly the code-level test. */
  lemma StaleMessageIffStaleCode(prefix: string, result: int)
    requires DigitFree(prefix)
    ensures IsStale(RuntimeError(FailureMessage(prefix, result))) <==> IsStaleCode(result)
  {
    var p := prefix + ": ";
    assert forall k :: 0 <= k < |p| ==> p[k] != STALE_TEXT[0] by {
      forall k | 0 <= k < |p|
        ensures p[k] != STALE_TEXT[0]
      {
        if k < |prefix| {
          assert p[k] == prefix[k];
        }
      }
    }
    assert FailureMessage(prefix, result) == p + IntToString(result);
    ContainsSkipsPrefix(p, IntToString(result), STALE_TEXT);
  }

  /** The acquire and present messages carry no digit 1, so recovery depends only
      on the decimal text of the result code. */
  lemma FrameMessagesAreDigitFree()
    ensures DigitFree(MSG_ACQUIRE) && DigitFree(MSG_PRESENT)
  {
  }

  /** VK_SUBOPTIMAL_KHR triggers recovery; VK_SUCCESS and the genuine
      VK_ERROR_OUT_OF_DATE_KHR code do not. */
  lemma StaleCodes()
    ensures IsStaleCode(VK_SUBOPTIMAL_KHR)
    ensures !IsStaleCode(VK_SUCCESS)
    ensures !IsStaleCode(VK_ERROR_OUT_OF_DATE_KHR)
  {
    SuboptimalText();
    assert StartsWith(IntToString(VK_SUBOPTIMAL_KHR), STALE_TEXT);
    SuccessIsNotStale();
    OutOfDateText();
  }

  lemma SuccessIsNotStale()
    ensures !IsStaleCode(VK_SUCCESS)
  {
    assert IntToString(VK_SUCCESS) == "0";
    ContainsNeedsRoom("0", STALE_TEXT);
  }

  lemma SuboptimalText()
    ensures IntToString(VK_SUBOPTIMAL_KHR) == STALE_TEXT
  {
    var n := VK_SUBOPTIMAL_KHR;
    assert NatToString(1) == "1";
    assert NatToString(10) == "10";
    assert NatToString(100) == "100";
    assert NatToString(1000) == "1000";
    assert NatToString(10000) == "10000";
    assert NatToString(100000) == "100000";
    assert NatToString(1000001) == "1000001";
  }

  lemma OutOfDateText()
    ensures !IsStaleCode(VK_ERROR_OUT_OF_DATE_KHR)
  {
    assert Pow10(10) == 10000000000;
    NegativeNotStale(VK_ERROR_OUT_OF_DATE_KHR);
  }

  /** A negative code of at most ten digits whose last digit is not 3 never
      carries the stale text: the minus sign cannot start it, and ten digits
      would have to match it exactly. */
  lemma NegativeNotStale(i: int)
    requires i < 0 && -i < Pow10(10) && (-i) % 10 != 3
    ensures !IsStaleCode(i)
  {
    var u := NatToString(-i);
    NatToStringDigits(-i, 10);
    var t := IntToString(i);
    assert t == "-" + u;
    assert t[0] != STALE_TEXT[0];
    assert t[1..] == u;
    if |u| == 10 {
      assert u[9] != STALE_TEXT[9];
    }
    assert !StartsWith(u, STALE_TEXT);
    ContainsNeedsRoom(u[1..], STALE_TEXT);
    assert !Contains(u, STALE_TEXT);
    assert !StartsWith(t, STALE_TEXT);
  }
}
