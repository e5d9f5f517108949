# xcwindow Vulkan engine core, modelled in Dafny

`EngineBase` (engine/engine.py) drives a Win32 window's Vulkan pipeline. Construction
creates a Vulkan instance with three fixed extensions, a Win32 surface for the
window, then searches the physical devices in enumeration order for the first
queue family that has the graphics bit and can present to the surface. It
requests a logical device for that family with the `VK_KHR_swapchain`
extension, fetches queue 0, and creates a swapchain under a fixed policy:
3 images, B8G8R8A8_SRGB, 800×600, FIFO, opaque, clipped. The device request is
not a valid Vulkan structure: its sType is 2 (Vulkan's value for a
queue-create record, not 3 for a device-create record), and its queue-create
pointer refers to the bare family index rather than to a queue-create record.
The model keeps both values as passed.

Each failing create call, and a failing acquire, raises a `RuntimeError` whose
text is the Chinese message prefix, `": "`, and the decimal result code. A
failing present would do the same once the present step works. A failed
surface-support query raises nothing; it only disqualifies the family. The
result of device enumeration is not checked. The two selection errors (no
device, no suitable family) carry no code.

`render_frame` acquires an image, runs the `_custom_render` hook, and is meant
to present the image. When the text of an acquire or present error contains
`"1000001003"`, it waits for the device to go idle, destroys the swapchain
and creates a new one. Every exception is swallowed into a `False` result.
As written, the present step never reaches `vkQueuePresentKHR`: converting
the stored swapchain raises TypeError (see "## Findings"). The model holds
both versions. `FrameLoop.RenderFrame` is the frame with the present
working, and `Present.RenderFrameWith` is the code as written. A lemma proves
the two equal once the conversions are fixed.

The window layer contributes the `Constant` class: the `WS_*` style masks and
`LOWORD`/`HIWORD`. It also contributes the exception classes of xcwindow/error.py,
which append an optional Windows error code to their message.

The model is functional. The driver's answers are given as a script: result
codes, returned handles, queue families and support flags. Each operation returns
its outcome together with the trace of API calls it issued, in order, so the
properties are stated over values and traces:

- `strings.dfy` (`Strings`): Python's `str(int)` and the substring test `in`, with
  a parse-back function and the lemmas that make messages readable.
- `wrappers.dfy` (`Wrappers`): `Option`.
- `constant.dfy` (`Constant`): the style masks as `bv32`, `LoWord`/`HiWord`
  on unbounded Python integers, and a reference bitwise AND.
- `error.dfy` (`Errors`): `XCRegisterClassError`, `XCCreateWindowError`,
  `XCLoadIconWarning`.
- `vulkan.dfy` (`Vulkan`): result codes, create-info records, the call
  alphabet, `_check_vk_result`, and the recovery test on message text.
- `selection.dfy` (`Selection`): `_select_physical_device`'s search and
  `_is_suitable_queue_family`.
- `engine_base.dfy` (`EngineBase`): `__init__` and every creating step.
- `frame_loop.dfy` (`FrameLoop`): `render_frame` with a working present step,
  `_recreate_swapchain`, and repeated frames on one engine.
- `present.dfy` (`Present`): `_present_image` as written, with the ctypes
  conversions it performs, and `render_frame` built on it.

The code compares against `1000001003`, and its comment calls that value
`VK_ERROR_OUT_OF_DATE_KHR`. The `VK_KHR_swapchain` extension of the Vulkan
specification assigns 1000001003 to `VK_SUBOPTIMAL_KHR` and -1000001004 to
`VK_ERROR_OUT_OF_DATE_KHR`. The model follows the code:
`FrameLoop.OutOfDateIsNotRecovered` proves that a genuine out-of-date acquire
skips the frame without recreating. Also, when a recreation's
`vkCreateSwapchainKHR` fails, the already destroyed handle stays in
`self.swapchain`. The model keeps that too (`FrameLoop.FailedRecreationKeepsDestroyedHandle`).

## Model

| member | source | states |
|---|---|---|
| Strings.IntToStringRoundTrip | engine/engine.py:572-574 | The decimal text placed in an error message reads back as exactly the result code, negative codes included. |
| Strings.IntToString | engine/engine.py:574 | `str(i)` writes canonical decimal text: a minus sign exactly for negative values, no leading zero except in "0", and no "-0". |
| Strings.CanonicalDecimalIsIntToString | engine/engine.py:574 | Any canonical decimal text that reads back as i is exactly `str(i)`, so a contract naming canonical text and its value fixes the text. |
| Strings.ContainsIffOccurs | engine/engine.py:499 | The recursive substring test agrees with "some position of the message starts an occurrence", in both directions. |
| Strings.Contains | engine/engine.py:499 | Python's `in`: the empty pattern occurs in every text, and a pattern longer than the text never occurs. |
| Strings.ContainsSkipsPrefix | engine/engine.py:513 | A prefix none of whose characters starts the pattern changes nothing about whether the pattern occurs. |
| Constant.LoWord | xcwindow/constant.py:143-144 | The low word is in [0, 0xFFFF] and differs from the value by a multiple of 65536, negative values included. |
| Constant.HiWord | xcwindow/constant.py:146-147 | The high word is in [0, 0xFFFF] and is the low word of the value shifted right by 16 with floor. |
| Constant.WordsAreBitMasks | xcwindow/constant.py:143-147 | On non-negative values LOWORD equals a bit-by-bit AND with 0xFFFF, and HIWORD equals that AND applied to the 16-bit shift. |
| Constant.BitAndLowMask | xcwindow/constant.py:144 | ANDing with 2^k - 1 keeps exactly the value modulo 2^k. |
| Constant.WordsRecombine | xcwindow/constant.py:143-147 | Every 32-bit value equals its high word times 65536 plus its low word. |
| Constant.SmallValueWords | xcwindow/constant.py:143-147 | A value below 65536 is its own low word and has high word 0, so LOWORD is idempotent. |
| Constant.OverlappedWindowMask | xcwindow/constant.py:93-102 | WS_OVERLAPPEDWINDOW and WS_TILEDWINDOW are the same mask, 0x00CF0000. |
| Constant.CaptionIncludesBorder | xcwindow/constant.py:12-15 | WS_CAPTION contains the WS_BORDER bits, as its documentation says. |
| Constant.PopupWindowMask | xcwindow/constant.py:104-105 | WS_POPUPWINDOW is 0x80880000, and combined with WS_CAPTION it keeps the WS_SYSMENU bit the window menu needs. |
| Constant.StyleAliases | xcwindow/constant.py:17-90 | The styles documented as "same as" another carry identical bits (CHILD/CHILDWINDOW, ICONIC/MINIMIZE, SIZEBOX/THICKFRAME, OVERLAPPED/TILED). |
| Errors.FormatMessage | xcwindow/error.py:20 | A falsy code (None or 0) leaves the message untouched. A truthy one yields the message, " (错误代码: ", the canonical decimal text of the code, then ")". |
| Errors.ShowsCodeDeterminesText | xcwindow/error.py:20 | Only one text satisfies that description: the message, the opening, `str(code)`, and the closing parenthesis. |
| Errors.NewWindowsError | xcwindow/error.py:11-40 | Either class stores the code as given, keeps the message as a prefix, and equals the bare message exactly when the code is falsy. |
| Errors.FormattedCodeIsRecoverable | xcwindow/error.py:20 | Distinct truthy codes never produce the same text. |
| Errors.SharedFormattingRule | xcwindow/error.py:20-40 | Both classes format identically. An omitted code behaves like None and like 0. |
| Errors.NewLoadIconWarning | xcwindow/error.py:50-58 | The warning's text is its message unchanged. |
| Vulkan.CheckVkResult | engine/engine.py:562-574 | No error exactly on VK_SUCCESS. Otherwise the message is the prefix, ": ", and canonical decimal text reading back as the code. |
| Vulkan.FailureMessage | engine/engine.py:574 | The raised text reports the prefix, the separator and the code in that form. |
| Vulkan.ReportsDeterminesMessage | engine/engine.py:574 | Any error reporting a code under a prefix has exactly the f-string's text, so no other spacing or digit form satisfies it. |
| Vulkan.StaleMessageIffStaleCode | engine/engine.py:497-516 | For a message prefix without the digit 1, the "1000001003 in str(e)" test on the failure message holds exactly when it holds of the code's decimal text. |
| Vulkan.IsStale | engine/engine.py:499 | The recovery test holds exactly when "1000001003" occurs at some position of the message. |
| Vulkan.FrameMessagesAreDigitFree | engine/engine.py:543 | The acquire message prefix, and the present prefix of line 471, contain no digit 1. |
| Vulkan.StaleCodes | engine/engine.py:499 | The recovery test fires for 1000001003 (VK_SUBOPTIMAL_KHR), not for VK_SUCCESS, and not for -1000001004 (VK_ERROR_OUT_OF_DATE_KHR). |
| Vulkan.NegativeNotStale | engine/engine.py:499 | A negative code with at most ten digits whose last digit is not 3 never triggers recovery: the sign cannot start the text, and ten digits would have to match it exactly. |
| Vulkan.SuccessIsNotStale | engine/engine.py:499 | A successful result never triggers recovery. |
| Selection.SearchFamilies | engine/engine.py:281-289 | The inner loop returns the first suitable family at or after the start, and issues one support query per family inspected, in order. |
| Selection.IsSuitable | engine/engine.py:312-327 | A family qualifies exactly when its support query succeeded, its flags carry the graphics bit, and the reported support is nonzero. A failed query disqualifies it whatever it wrote back. |
| Selection.SearchDevices | engine/engine.py:278-289 | The outer loop returns a suitable pair with no suitable pair before it. It issues only queries, none beyond the chosen pair, and the chosen pair's query comes last. |
| Selection.SelectQueueFamily | engine/engine.py:269-289 | The result is the first suitable (device, family) pair in enumeration order. It is absent exactly when no pair qualifies, and no pair after it is queried. |
| Selection.SearchInspectsEarlierPairs | engine/engine.py:278-289 | Every pair up to and including the chosen one (every pair, if none is chosen) has its support query in the trace. |
| Selection.SecondDeviceSelected | engine/engine.py:278-289 | With no suitable family on device 0 and family 1 of device 1 suitable, the search picks (1, 1). |
| EngineBase.InstanceInfo | engine/engine.py:203-220 | The instance request enables exactly three extensions: surface, win32 surface, debug utils. |
| EngineBase.SurfaceInfo | engine/engine.py:261-267 | The surface request is a Win32 surface request bound to exactly the window and module handles the engine was given. |
| EngineBase.DeviceExtensions | engine/engine.py:355-357 | The device enables one extension, the swapchain extension, which is none of the instance's extensions. |
| EngineBase.DeviceInfo | engine/engine.py:359-373 | The request the engine fills: sType 2, a queue-create count of 1 whose entry is the selected family index itself. Each count field equals the length of its list, and the extensions pass through unchanged. |
| EngineBase.SwapchainInfo | engine/engine.py:411-427 | Every swapchain request carries the fixed policy for the given surface. |
| EngineBase.BuildDevice | engine/engine.py:329-385 | vkCreateDevice is called for the selected family with the swapchain extension. On success queue 0 of that family is fetched. On failure nothing follows and the error reports the code. |
| EngineBase.BuildSwapchain | engine/engine.py:387-409 | One policy request on the device. The handle is stored exactly on success, and a failure reports the code. |
| EngineBase.Construct | engine/engine.py:194-260 | Construction opens with the instance request. A failed instance request raises a RuntimeError reporting that result after that one call. A constructed engine keeps the window handles and the instance and surface the driver returned. |
| EngineBase.SurfaceOnward | engine/engine.py:237-259 | The surface stage opens with the surface request on the created instance. A failed surface request raises a RuntimeError reporting its result after that one call. A successful stage keeps the window handles, the instance and the surface the driver returned. |
| EngineBase.SurfaceFailureStopsConstruction | engine/engine.py:250-256 | When the instance exists but the surface request fails, construction raises a RuntimeError reporting the surface result, after exactly the instance and surface requests. |
| EngineBase.InstanceFailureStopsConstruction | engine/engine.py:225-231 | A failed instance request raises, and construction issues no queue-family query, device request or swapchain request. |
| EngineBase.EarlyFailureCreatesNothing | engine/engine.py:199-201 | When either the instance or the surface request fails, construction raises before any queue-family query, device creation or swapchain creation. |
| EngineBase.SelectPhysicalDevice | engine/engine.py:269-302 | The selection step opens with enumeration. The engine it yields keeps the handles of the earlier steps. |
| EngineBase.SetUpDevice | engine/engine.py:329-409 | Device then swapchain for the chosen pair. Success holds exactly when both calls succeed, and the calls issued are the create, queue 0 of the family, and the swapchain request. |
| EngineBase.ZeroDevicesFailEarly | engine/engine.py:291-297 | With no physical device, construction fails with the no-device error before any queue family is queried and before anything is created. |
| EngineBase.NoSuitableFamilyFails | engine/engine.py:278-289 | Devices exist but no pair qualifies: the no-suitable-family error is raised, and no device and no swapchain were requested. |
| EngineBase.ConstructSucceedsIff | engine/engine.py:194-289 | Construction succeeds exactly when instance, surface, device and swapchain creation succeed and some pair qualifies. |
| EngineBase.ConstructSelectsFirstSuitable | engine/engine.py:282-286 | A constructed engine holds the first suitable pair, that device's handle, and the device, queue and swapchain handles the driver returned. |
| EngineBase.DeviceSetup | engine/engine.py:269-289 | The trace is a creation-free prefix (instance, surface, enumeration, queries) followed by the device step for the chosen pair. |
| EngineBase.ConstructSwapchainPolicy | engine/engine.py:387-427 | The last call of a successful construction is the fixed-policy swapchain request for the engine's device and surface. |
| FrameLoop.RecreateSwapchain | engine/engine.py:546-556 | Exactly idle wait, destroy of the current handle, policy request. The handle is replaced exactly when the request succeeds. A failure reports the code and keeps the old handle. |
| FrameLoop.PresentInfoFor | engine/engine.py:473-482 | The present request names one swapchain and one image index, the ones given, and its count agrees with both lists. |
| FrameLoop.Recover | engine/engine.py:497-516 | A stale error appends exactly an idle wait, a destroy of the current handle and a policy request, and the handle is replaced exactly when that request succeeds. Any other error leaves engine and trace as they were. The frame is never rendered. |
| FrameLoop.RenderFrame | engine/engine.py:484-521 | With the present step working: rendered exactly when acquire, hook and present all succeed. The trace opens with an unbounded acquire on the current swapchain. Only the swapchain changes, and only when a recreation happened and succeeded. |
| FrameLoop.StaleAcquireRecreatesOnce | engine/engine.py:496-501 | A stale acquire is followed by one recreation. The hook and present are never reached. |
| FrameLoop.FailedAcquireSkipsFrame | engine/engine.py:496-502 | Any other acquire failure skips the frame after the acquire alone, with the engine unchanged. |
| FrameLoop.HookFailureSkipsPresent | engine/engine.py:504-521 | A raising hook ends the frame after acquire and hook: no present, no recreation. |
| FrameLoop.StalePresentRecreatesOnce | engine/engine.py:507-516 | With the present step working, a stale present follows exactly one hook call and is followed by one recreation. As written this branch cannot run (`Present.AsWrittenNeverPresents`). |
| FrameLoop.FrameWithoutRecovery | engine/engine.py:504-518 | With the present step working and no stale code, the frame is acquire, hook, present of the acquired index. The engine is unchanged, and the frame is rendered exactly when present succeeds. |
| FrameLoop.FrameShape | engine/engine.py:484-521 | With the present step working, every frame is the acquire, the hook call iff acquire succeeded, the present iff the hook also returned, and a recreation iff the recovery condition holds. |
| FrameLoop.HookCalledOnce | engine/engine.py:504 | The hook runs exactly once, with the acquired index, when acquire succeeds, and never otherwise. |
| FrameLoop.PresentAtMostOnce | engine/engine.py:507-508 | With the present step working: at most one present per frame, of the acquired index on the graphics queue, and only after the hook returned. |
| FrameLoop.RecreationAtMostOnce | engine/engine.py:497-516 | A frame waits for idle and requests a swapchain exactly once when it recovers, and never otherwise. The present disjunct of the recovery condition applies only with the present step working. |
| FrameLoop.FrameOrdering | engine/engine.py:504-556 | The hook call precedes every present, and every destroy is immediately preceded by an idle wait on the same device. |
| FrameLoop.OutOfDateIsNotRecovered | engine/engine.py:499 | A VK_ERROR_OUT_OF_DATE_KHR acquire is swallowed without recreation: the engine is unchanged and the trace is the acquire alone. |
| FrameLoop.FailedRecreationKeepsDestroyedHandle | engine/engine.py:551-556 | After a failed recreation the engine still holds the handle the frame destroyed. |
| FrameLoop.RunFrames | engine/engine.py:484-521 | Repeated frames give exactly one rendered-or-skipped result per frame. |
| FrameLoop.RunReportsEachFrame | engine/engine.py:484-521 | With the present step working, frame i of a run is reported as rendered exactly when its acquire, render hook and present all succeed, whatever the earlier frames did. |
| FrameLoop.RunKeepsDevice | engine/engine.py:546-556 | Over any run, the device, queue, surface, instance and selected family stay as constructed; only the swapchain handle can change. |
| FrameLoop.RunWithoutRecoveryKeepsEngine | engine/engine.py:484-521 | A run in which no frame hits the recovery path leaves the engine exactly as it was. |
| FrameLoop.RunDestroysAfterIdle | engine/engine.py:546-556 | Across any number of frames, every destroy directly follows an idle wait on the same device. |
| FrameLoop.RunRequestsFollowPolicy | engine/engine.py:411-427 | Across any number of frames, every swapchain request is the fixed-policy request for the engine's device and surface. |
| FrameLoop.RecreationRepeatsConstructionRequest | engine/engine.py:546-556 | For a constructed engine, every recreation in any run of frames issues exactly the request construction issued last. |
| Present.VoidPointerOf | engine/engine.py:462 | `c_void_p(v)` accepts exactly None and ints, an int keeping its value. A `c_void_p` instance, which is what the engine stores, raises TypeError. |
| Present.StorePointerField | engine/engine.py:480-481 | A pointer-typed structure field accepts exactly None, a pointer object or an array of its target type (stored as the address of the first element, as for the extension-name arrays). A `byref` reference raises TypeError. |
| Present.PresentImage | engine/engine.py:452-482 | The present is issued exactly when both conversions accept their arguments. It is then a present of the given index on the graphics queue, and its error is absent exactly on VK_SUCCESS. |
| Present.RenderFrameWith | engine/engine.py:484-521 | As written: the trace opens with the acquire, and a frame is rendered only when everything succeeds and the present step actually issued the call. |
| Present.IntendedFrameIsRenderFrame | engine/engine.py:452-521 | With the swapchain passed as an int and pointer objects in the fields, `render_frame` as written is exactly `FrameLoop.RenderFrame`. |
| Present.AsWrittenNeverPresents | engine/engine.py:462 | As written, no frame presents or is rendered. After a successful acquire the frame is the acquire and the hook call alone, with the engine unchanged, so the stale-present recovery at 512-516 never runs. |
| Present.SucceedingFrameIsLostAsWritten | engine/engine.py:462 | When acquire, hook and present would all succeed, the working frame is rendered and presents. As written the frame reports failure, and its trace lacks exactly that present. |
| Present.ReferencesStillRaise | engine/engine.py:480-481 | Passing the handle as an int at line 462 alone still raises, because of the `byref` fields. Fixing both conversions lets the present through. |
| Present.RunAsWrittenNeverPresents | engine/engine.py:484-521 | As written, no frame of any run of `render_frame` calls is rendered, and no present is ever issued. |
| Present.AsWrittenAgreesBeforePresent | engine/engine.py:494-504 | When the acquire fails or the hook raises, the as-written frame is exactly `FrameLoop.RenderFrame`'s frame: same result, same calls, same recovery. |
| Present.AsWrittenFrameKeepsDiscipline | engine/engine.py:484-521 | One as-written frame keeps every handle but the swapchain, destroys the swapchain only right after an idle wait on its device, and requests swapchains only under the fixed policy. |
| Present.RunAsWrittenKeepsDiscipline | engine/engine.py:546-556 | Over any as-written run the device, queue, surface and instance stay as they were, every destroy directly follows an idle wait, and every swapchain request is the fixed-policy request for the engine's device and surface. |

## Left out

- The ctypes plumbing is not modelled: the DLL loading, `argtypes`/`restype` declarations and structure layouts at the head of engine/engine.py. Handles are opaque integers, and each create-info record is a value holding the fields the engine sets.
- The first definition of `_acquire_next_image` (engine/engine.py:429-450) is shadowed by the later one at 523-544, so only the later one is modelled. Both raise the same message.
- The `result == 1000001003` test at engine/engine.py:509 is not modelled. `_present_image` returns None, so that test never holds.
- Only one `vkEnumeratePhysicalDevices` and one `vkGetPhysicalDeviceQueueFamilyProperties` event is recorded per enumeration. The source calls each twice, once for the count and once for the data. Physical devices appear in calls by their enumeration index.
- `hasattr(self, 'swapchain')` at engine/engine.py:552 is treated as always true: `render_frame` can only run on a constructed engine, and construction sets the attribute.
- The results of `vkDeviceWaitIdle` and `vkDestroySwapchainKHR` are ignored by the source and so are not modelled.
- The waits are single trace events with no timing. The acquire's UINT64_MAX timeout appears only as a call argument.
- `_custom_render` is modelled only as returning or raising. An overriding hook that changes engine state is not modelled.
- Exceptions outside `Exception` (such as `KeyboardInterrupt`) would escape `render_frame`, and they are not modelled.
- The console output of `render_frame` and `XCLoadIconWarning` is not modelled.
- StalePresentRecreatesOnce: describes the frame with a working present step. As written `_present_image` raises TypeError first, so this branch never runs. `Present.AsWrittenNeverPresents` proves that.
- FrameWithoutRecovery: describes the frame with a working present step. As written the frame ends after the hook with `False` (`Present.AsWrittenNeverPresents`).
- FrameShape: the present part is the call the working present step issues. As written no present is issued (`Present.AsWrittenNeverPresents`).
- PresentAtMostOnce: with the present step working, one present follows a returning hook. As written there are none (`Present.AsWrittenNeverPresents`).
- RecreationAtMostOnce: the present disjunct of the recovery condition holds only with the present step working. As written only a stale acquire recovers.
- RunReportsEachFrame: with the present step working. As written no frame of any run is rendered (`Present.RunAsWrittenNeverPresents`).
- The ctypes semantics behind the present failure are modelled as two conversion rules: `c_void_p(...)` accepts only None or an int, and a pointer-typed structure field accepts only None, a pointer object or an array of its target type. Other ctypes conversions are taken to succeed.
- The surface-support query at engine/engine.py:318-323 passes the physical-device handle as a bare Python int. The argtypes block at lines 137-148 runs only when the function is missing, so no argtypes are declared, and ctypes converts such an int as a 32-bit C int. A handle that does not fit would raise instead of querying. The model treats the handle as passed intact.
- The device request at engine/engine.py:364-369 carries sType 2, which Vulkan assigns to VK_STRUCTURE_TYPE_DEVICE_QUEUE_CREATE_INFO (the device-create value is 3), and points `pQueueCreateInfos` at one bare `c_uint32` family index where a VkDeviceQueueCreateInfo record belongs. The model keeps both as passed and does not say how a driver treats such a request.
- The swapchain pre-transform is the value 0 that engine/engine.py:422 passes. Its comment calls it VK_SURFACE_TRANSFORM_IDENTITY_BIT_KHR, which the Vulkan specification defines as 1, so 0 names no transform bit. The model keeps 0 and does not model how a driver treats it.
- xcwindow/window.py and main.py use this core but are not part of this model.
- The `WS_EX_*`, `WM_*`, `CS_*`, `IDI_*`, `IDC_*`, `MB_*` and other constants of xcwindow/constant.py are plain values that no operation combines, so they are not modelled.
- Python's `WindowsError` base class contributes only `str(e)` here. Its `errno`/`winerror` attributes are not modelled.

## Findings

| source | as written | input that shows it | evidently intended | confidence | as-written member | corrected member |
|---|---|---|---|---|---|---|
| engine/engine.py:462 (and 480-481) | `_present_image` calls `ctypes.c_void_p(self.swapchain)`, but `self.swapchain` is already a `c_void_p` instance (lines 399, 408). `c_void_p` accepts only None or an int, so TypeError is raised before `vkQueuePresentKHR`. The handler at 512 catches only RuntimeError, so the outer handler at 519 returns False. Lines 480-481 would raise too, because they store `byref` references in pointer-typed fields. | acquire VK_SUCCESS, hook returns, present VK_SUCCESS: the frame issues acquire and hook, never presents, and returns False | present the acquired image, and return True when the present succeeds | high (reasoned from ctypes' documented conversions; not executed) | Present.AsWrittenNeverPresents | FrameLoop.RenderFrame |
