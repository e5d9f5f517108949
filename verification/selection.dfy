/** Device and queue-family selection: a first-match search over the physical
    devices in enumeration order and, within each, over its queue families in
    order. The present-support query is issued for every family inspected. */
module Selection {
  import opened Wrappers
  import opened Vulkan

  /** One queue family of a physical device: its capability flags, and what the
      present-support query against the bound surface reports for it (the call's
      result code and the supported flag it writes back). */
  datatype QueueFamily = QueueFamily(queueFlags: bv32, supportResult: int, presentSupport: bv32)

  /** A physical device as enumerated: an opaque handle and its queue families. */
  datatype PhysicalDevice = PhysicalDevice(handle: Handle, queueFamilies: seq<QueueFamily>)

  /** A (device index, family index) pair. */
  datatype Choice = Choice(device: nat, family: nat)

  /** The outcome of the search and the queries it issued, in order. */
  datatype Search = Search(choice: Option<Choice>, trace: seq<Call>)

  /** `_is_suitable_queue_family`: the support query succeeded, the graphics bit is
      set and the supported flag is nonzero. */
  predicate IsSuitable(f: QueueFamily)
    ensures IsSuitable(f) ==> f.supportResult == VK_SUCCESS
    ensures IsSuitable(f) <==>
              f.supportResult == VK_SUCCESS && f.queueFlags & VK_QUEUE_GRAPHICS_BIT == VK_QUEUE_GRAPHICS_BIT && f.presentSupport != 0
  {
    f.supportResult == VK_SUCCESS && f.queueFlags & VK_QUEUE_GRAPHICS_BIT != 0 && f.presentSupport != 0
  }

  predicate ValidPair(devices: seq<PhysicalDevice>, c: Choice) {
    c.device < |devices| && c.family < |devices[c.device].queueFamilies|
  }

  predicate SuitablePair(devices: seq<PhysicalDevice>, c: Choice) {
    ValidPair(devices, c) && IsSuitable(devices[c.device].queueFamilies[c.family])
  }

  /** Enumeration order of pairs: device first, then family. */
  predicate Before(a: Choice, b: Choice) {
    a.device < b.device || (a.device == b.device && a.family < b.family)
  }

  /** Reference definition of the selection: a suitable pair with no suitable pair
      before it in enumeration order. */
  ghost predicate IsFirstSuitable(devices: seq<PhysicalDevice>, c: Choice) {
    && SuitablePair(devices, c)
    && forall c' :: Before(c', c) ==> !SuitablePair(devices, c')
  }

  ghost predicate NoneSuitable(devices: seq<PhysicalDevice>) {
    forall c :: !SuitablePair(devices, c)
  }

  /** The calls a selection may issue: queue-family enumeration and support queries. */
  predicate IsQuery(c: Call) {
    c.GetQueueFamilyProperties? || c.GetSurfaceSupport?
  }

  function Queried(c: Call): Choice
    requires c.GetSurfaceSupport?
  {
    Choice(c.physicalDevice, c.family)
  }

  /** The outcome of the inner loop over one device's families: the index of
      the family taken, if any, and the support queries issued. */
  datatype FamilySearch = FamilySearch(family: Option<nat>, trace: seq<Call>)

  /** The inner loop over the families of device `d`, starting at family `j`. */
  function SearchFamilies(d: nat, families: seq<QueueFamily>, j: nat, surface: Handle): (r: FamilySearch)
    requires j <= |families|
    ensures r.family.Some? ==> j <= r.family.value < |families| && IsSuitable(families[r.family.value])
    ensures forall k :: j <= k < |families| && (r.family.None? || k < r.family.value) ==> !IsSuitable(families[k])
    ensures |r.trace| == if r.family.Some? then r.family.value + 1 - j else |families| - j
    ensures forall i :: 0 <= i < |r.trace| ==> r.trace[i] == GetSurfaceSupport(d, j + i, surface)
    decreases |families| - j
  {
    if j == |families| then FamilySearch(None, [])
    else
      var query := GetSurfaceSupport(d, j, surface);
      if IsSuitable(families[j]) then FamilySearch(Some(j), [query])
      else
        var rest := SearchFamilies(d, families, j + 1, surface);
        FamilySearch(rest.family, [query] + rest.trace)
  }

  /** The outer loop over devices, starting at device `d`. */
  function SearchDevices(devices: seq<PhysicalDevice>, d: nat, surface: Handle): (r: Search)
    requires d <= |devices|
    ensures r.choice.Some? ==> SuitablePair(devices, r.choice.value) && r.choice.value.device >= d
    ensures forall c :: ValidPair(devices, c) && c.device >= d && (r.choice.None? || Before(c, r.choice.value))
              ==> !SuitablePair(devices, c)
    ensures forall i :: 0 <= i < |r.trace| ==> IsQuery(r.trace[i])
    ensures forall i :: 0 <= i < |r.trace| && r.trace[i].GetSurfaceSupport? ==>
              && r.trace[i].surface == surface
              && ValidPair(devices, Queried(r.trace[i]))
              && Queried(r.trace[i]).device >= d
              && (r.choice.Some? ==> !Before(r.choice.value, Queried(r.trace[i])))
    ensures r.choice.Some? ==>
              (|r.trace| > 0 &&
               r.trace[|r.trace| - 1] == GetSurfaceSupport(r.choice.value.device, r.choice.value.family, surface))
    decreases |devices| - d
  {
    if d == |devices| then Search(None, [])
    else
      var inner := SearchFamilies(d, devices[d].queueFamilies, 0, surface);
      var head := [GetQueueFamilyProperties(d)] + inner.trace;
      if inner.family.Some? then
        Search(Some(Choice(d, inner.family.value)), head)
      else
        var rest := SearchDevices(devices, d + 1, surface);
        Search(rest.choice, head + rest.trace)
  }

  /** `_select_physical_device`'s search: the first suitable pair in enumeration
      order, or none exactly when no pair anywhere is suitable. */
  function SelectQueueFamily(devices: seq<PhysicalDevice>, surface: Handle): (r: Search)
    ensures r.choice.Some? ==> IsFirstSuitable(devices, r.choice.value)
    ensures r.choice.None? <==> NoneSuitable(devices)
    ensures forall i :: 0 <= i < |r.trace| ==> IsQuery(r.trace[i])
    ensures forall i :: 0 <= i < |r.trace| && r.trace[i].GetSurfaceSupport? && r.choice.Some? ==>
              !Before(r.choice.value, Queried(r.trace[i]))
  {
    SearchDevices(devices, 0, surface)
  }

  /** Every pair up to and including the selected one (every pair, when none is
      selected) has its support query in the trace: the search skips nothing. */
  lemma {:induction false} SearchInspectsEarlierPairs(devices: seq<PhysicalDevice>, d: nat, surface: Handle, c: Choice)
    requires d <= |devices|
    requires ValidPair(devices, c) && c.device >= d
    requires var r := SearchDevices(devices, d, surface);
             r.choice.None? || Before(c, r.choice.value) || c == r.choice.value
    ensures GetSurfaceSupport(c.device, c.family, surface) in SearchDevices(devices, d, surface).trace
    decreases |devices| - d
  {
    var inner := SearchFamilies(d, devices[d].queueFamilies, 0, surface);
    var head := [GetQueueFamilyProperties(d)] + inner.trace;
    if c.device == d {
      assert head[c.family + 1] == inner.trace[c.family];
    } else {
      assert inner.family.None?;
      SearchInspectsEarlierPairs(devices, d + 1, surface, c);
      var rest := SearchDevices(devices, d + 1, surface);
      assert SearchDevices(devices, d, surface).trace == head + rest.trace;
    }
  }

  /** The worked case of two devices where only the second device's family 1 qualifies. */
  lemma SecondDeviceSelected(d0: PhysicalDevice, d1: PhysicalDevice, surface: Handle)
    requires forall j :: 0 <= j < |d0.queueFamilies| ==> !IsSuitable(d0.queueFamilies[j])
    requires |d1.queueFamilies| >= 2 && !IsSuitable(d1.queueFamilies[0]) && IsSuitable(d1.queueFamilies[1])
    ensures SelectQueueFamily([d0, d1], surface).choice == Some(Choice(1, 1))
  {
    assert SuitablePair([d0, d1], Choice(1, 1));
  }
}
