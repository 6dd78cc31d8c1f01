/**
  The application's start-up and shut-down bookkeeping: which queue families it picks,
  which queues it asks the logical device for, which layers and extensions it requests,
  and in which order it acquires and releases its handles.

  Every driver and windowing-library query is an input (`Driver`); every handle is a
  `Resource` entry in the application's acquisition and release logs.
*/
module HelloTriangle {
  import opened Options

  // ---------------------------------------------------------------------------
  // Queue-family indices
  // ---------------------------------------------------------------------------

  /** The two optional family indices; an absent index is never read as 0. */
  datatype QueueFamilyIndices = QueueFamilyIndices(graphics: Option<nat>, present: Option<nat>)
  {
    /** Both indices have been found: only then may either be read. */
    predicate IsComplete()
    {
      graphics.Some? && present.Some?
    }

    /** The distinct family indices that are set, as `std::set` holds them. */
    function UniqueQueueFamilies(): (s: set<nat>)
      ensures forall f :: f in s <==> graphics == Some(f) || present == Some(f)
      ensures |s| <= 2
      ensures IsComplete() ==> (|s| == 1 <==> graphics == present)
      ensures IsComplete() ==> (|s| == 2 <==> graphics != present)
      ensures !IsComplete() ==> |s| <= 1
    {
      (if graphics.Some? then {graphics.value} else {}) + (if present.Some? then {present.value} else {})
    }
  }

  const NoIndices := QueueFamilyIndices(None, None)

  /** What the driver reports about one queue family of the chosen device: whether its
      flags include graphics, and whether it can present to the application's surface. */
  datatype QueueFamily = QueueFamily(hasGraphics: bool, presentSupported: bool)

  datatype Capability = Graphics | Present

  predicate Supports(family: QueueFamily, c: Capability)
  {
    match c
    case Graphics => family.hasGraphics
    case Present => family.presentSupported
  }

  /** The index last recorded for `c` after visiting families 0 .. n-1: the search loop
      overwrites on every match, so this is the largest matching index below n. */
  function LastSupporting(families: seq<QueueFamily>, c: Capability, n: nat): (r: Option<nat>)
    requires n <= |families|
    ensures r.Some? ==> r.value < n && Supports(families[r.value], c)
    ensures r.Some? ==> forall j :: r.value < j < n ==> !Supports(families[j], c)
    ensures r.None? ==> forall j :: 0 <= j < n ==> !Supports(families[j], c)
  {
    if n == 0 then None
    else if Supports(families[n - 1], c) then Some(n - 1)
    else LastSupporting(families, c, n - 1)
  }

  /** The indices held after visiting families 0 .. n-1. */
  function IndicesAfter(families: seq<QueueFamily>, n: nat): QueueFamilyIndices
    requires n <= |families|
  {
    QueueFamilyIndices(LastSupporting(families, Graphics, n), LastSupporting(families, Present, n))
  }

  /** How many families the search visits when it has already visited `n`: it stops as
      soon as both indices are set, or when the families run out. */
  function SearchEnd(families: seq<QueueFamily>, n: nat): (r: nat)
    requires n <= |families|
    ensures n <= r <= |families|
    ensures r == |families| || IndicesAfter(families, r).IsComplete()
    ensures forall m :: n <= m < r ==> !IndicesAfter(families, m).IsComplete()
    decreases |families| - n
  {
    if n == |families| || IndicesAfter(families, n).IsComplete() then n
    else SearchEnd(families, n + 1)
  }

  /** The indices the family search of device creation ends with. */
  function ResolvedIndices(families: seq<QueueFamily>): QueueFamilyIndices
  {
    IndicesAfter(families, SearchEnd(families, 0))
  }

  /** Some family among 0 .. k supports graphics and some family among 0 .. k supports
      presentation. */
  predicate SeenBoth(families: seq<QueueFamily>, k: nat)
    requires k < |families|
  {
    (exists g :: 0 <= g <= k && families[g].hasGraphics) &&
    (exists p :: 0 <= p <= k && families[p].presentSupported)
  }

  lemma IndicesAfterComplete(families: seq<QueueFamily>, k: nat)
    requires k < |families|
    ensures IndicesAfter(families, k + 1).IsComplete() <==> SeenBoth(families, k)
  {
    var r := IndicesAfter(families, k + 1);
    if SeenBoth(families, k) {
      var g :| 0 <= g <= k && families[g].hasGraphics;
      var p :| 0 <= p <= k && families[p].presentSupported;
      assert Supports(families[g], Graphics) && Supports(families[p], Present);
    }
  }

  /** The search stops at the first index k by which both a graphics-capable and a
      present-capable family have been seen; each index is then the LARGEST capable one
      up to k, because later matches overwrite earlier ones. */
  lemma SearchStopsAtFirstCompleteIndex(families: seq<QueueFamily>, k: nat)
    requires k < |families|
    requires SeenBoth(families, k)
    requires forall m :: 0 <= m < k ==> !SeenBoth(families, m)
    ensures ResolvedIndices(families).IsComplete()
    ensures var g := ResolvedIndices(families).graphics.value;
      g <= k && families[g].hasGraphics && forall j :: g < j <= k ==> !families[j].hasGraphics
    ensures var p := ResolvedIndices(families).present.value;
      p <= k && families[p].presentSupported && forall j :: p < j <= k ==> !families[j].presentSupported
  {
    IndicesAfterComplete(families, k);
    var e := SearchEnd(families, 0);
    if e <= k {
      assert !IndicesAfter(families, 0).IsComplete();
      IndicesAfterComplete(families, e - 1);
      assert false;
    }
    assert e == k + 1;
    var r := ResolvedIndices(families);
    forall j | r.graphics.value < j <= k ensures !families[j].hasGraphics {
      assert !Supports(families[j], Graphics);
    }
    forall j | r.present.value < j <= k ensures !families[j].presentSupported {
      assert !Supports(families[j], Present);
    }
  }

  /** The search ends complete exactly when some family supports graphics and some
      family supports presentation; a set index always names a capable family. */
  lemma ResolvedIndicesSound(families: seq<QueueFamily>)
    ensures var r := ResolvedIndices(families);
      r.IsComplete() <==>
        (exists g :: 0 <= g < |families| && families[g].hasGraphics) &&
        (exists p :: 0 <= p < |families| && families[p].presentSupported)
    ensures var r := ResolvedIndices(families);
      r.graphics.Some? ==> r.graphics.value < |families| && families[r.graphics.value].hasGraphics
    ensures var r := ResolvedIndices(families);
      r.present.Some? ==> r.present.value < |families| && families[r.present.value].presentSupported
  {
    var r := ResolvedIndices(families);
    var e := SearchEnd(families, 0);
    if (exists g :: 0 <= g < |families| && families[g].hasGraphics) &&
       (exists p :: 0 <= p < |families| && families[p].presentSupported) {
      var g :| 0 <= g < |families| && families[g].hasGraphics;
      var p :| 0 <= p < |families| && families[p].presentSupported;
      assert Supports(families[g], Graphics) && Supports(families[p], Present);
      assert IndicesAfter(families, |families|).IsComplete();
    }
    if r.graphics.Some? {
      assert Supports(families[r.graphics.value], Graphics);
    }
    if r.present.Some? {
      assert Supports(families[r.present.value], Present);
    }
  }

  /** Graphics in families 0 and 1, presentation only in 2: the search keeps 1, not 0. */
  lemma OverwritingExample()
    ensures ResolvedIndices([QueueFamily(true, false), QueueFamily(true, false), QueueFamily(false, true)])
         == QueueFamilyIndices(Some(1), Some(2))
  {
    var fs := [QueueFamily(true, false), QueueFamily(true, false), QueueFamily(false, true)];
    assert !IndicesAfter(fs, 1).IsComplete() && !IndicesAfter(fs, 2).IsComplete();
    assert SearchEnd(fs, 0) == 3;
  }

  // ---------------------------------------------------------------------------
  // The queue-create list
  // ---------------------------------------------------------------------------

  /** One queue requested from one family (the priority is always 1.0). */
  datatype DeviceQueueCreateInfo = DeviceQueueCreateInfo(queueFamilyIndex: nat, queueCount: nat)

  /** `m` is the smallest element of `s`. */
  predicate IsLeast(m: nat, s: set<nat>)
  {
    m in s && forall x :: x in s ==> m <= x
  }

  /** Every non-empty finite set of indices has a smallest element. */
  lemma {:induction false} LeastExists(s: set<nat>)
    requires s != {}
    ensures exists m :: IsLeast(m, s)
    decreases |s|
  {
    var y :| y in s;
    var rest := s - {y};
    if rest == {} {
      forall x | x in s ensures y <= x {
        assert x == y || x in rest;
      }
      assert IsLeast(y, s);
    } else {
      LeastExists(rest);
      var m :| IsLeast(m, rest);
      var least := if y < m then y else m;
      forall x | x in s ensures least <= x {
        if x != y { assert x in rest; }
      }
      assert IsLeast(least, s);
    }
  }

  /** The families an entry list asks queues from. */
  function FamiliesOf(infos: seq<DeviceQueueCreateInfo>): set<nat>
  {
    if infos == [] then {}
    else FamiliesOf(infos[..|infos| - 1]) + {infos[|infos| - 1].queueFamilyIndex}
  }

  /** Appending one entry adds exactly its family. */
  lemma FamiliesOfAppend(infos: seq<DeviceQueueCreateInfo>, info: DeviceQueueCreateInfo)
    ensures FamiliesOf(infos + [info]) == FamiliesOf(infos) + {info.queueFamilyIndex}
  {
    assert (infos + [info])[..|infos|] == infos;
  }

  /** The state of the loop below: `infos` covers the families already taken out of
      `remaining`, in ascending order, each below every family still remaining. */
  predicate Partial(families: set<nat>, infos: seq<DeviceQueueCreateInfo>, remaining: set<nat>)
  {
    && remaining <= families
    && FamiliesOf(infos) == families - remaining
    && |infos| + |remaining| == |families|
    && (forall j :: 0 <= j < |infos| ==> infos[j].queueCount == 1)
    && (forall j, k :: 0 <= j < k < |infos| ==> infos[j].queueFamilyIndex < infos[k].queueFamilyIndex)
    && (forall j, f :: 0 <= j < |infos| && f in remaining ==> infos[j].queueFamilyIndex < f)
  }

  /** Taking the smallest remaining family keeps the loop state. */
  lemma PartialStep(families: set<nat>, infos: seq<DeviceQueueCreateInfo>, remaining: set<nat>, f: nat)
    requires Partial(families, infos, remaining)
    requires IsLeast(f, remaining)
    ensures Partial(families, infos + [DeviceQueueCreateInfo(f, 1)], remaining - {f})
  {
    FamiliesOfAppend(infos, DeviceQueueCreateInfo(f, 1));
  }

  /** One entry with one queue per family of the set, visited in ascending order as
      `std::set` iterates. */
  method QueueCreateInfos(families: set<nat>) returns (infos: seq<DeviceQueueCreateInfo>)
    ensures FamiliesOf(infos) == families
    ensures |infos| == |families|
    ensures forall j :: 0 <= j < |infos| ==> infos[j].queueCount == 1
    ensures forall j, k :: 0 <= j < k < |infos| ==> infos[j].queueFamilyIndex < infos[k].queueFamilyIndex
  {
    infos := [];
    var remaining := families;
    while remaining != {}
      invariant Partial(families, infos, remaining)
      decreases |remaining|
    {
      LeastExists(remaining);
      var f :| IsLeast(f, remaining);
      PartialStep(families, infos, remaining, f);
      infos := infos + [DeviceQueueCreateInfo(f, 1)];
      remaining := remaining - {f};
    }
  }

  // ---------------------------------------------------------------------------
  // Layers and extensions
  // ---------------------------------------------------------------------------

  const ValidationLayerName := "VK_LAYER_KHRONOS_validation"
  const LayersToEnable: seq<string> := [ValidationLayerName]
  const DebugUtilsExtensionName := "VK_EXT_debug_utils"

  /** The requested layers that the available list does not name, in request order. */
  function Unavailable(requested: seq<string>, available: seq<string>): (r: seq<string>)
    ensures |r| <= |requested|
    ensures forall x :: x in r <==> x in requested && x !in available
  {
    if requested == [] then []
    else
      var last := requested[|requested| - 1];
      var init := requested[..|requested| - 1];
      assert requested == init + [last];
      Unavailable(init, available) + (if last in available then [] else [last])
  }

  function MissingLayerMessage(layer: string): string
  {
    "- Layer \"" + layer + "\" is not available, ignoring."
  }

  /** The warning lines `getValidationLayers` writes: one per unavailable layer, in order. */
  function MissingLayerWarnings(available: seq<string>): seq<string>
  {
    var missing := Unavailable(LayersToEnable, available);
    seq(|missing|, j requires 0 <= j < |missing| => MissingLayerMessage(missing[j]))
  }

  function SelectedDeviceMessage(deviceName: string): string
  {
    "Selected device \"" + deviceName + "\""
  }

  /** The linear search that looks a layer name up among the available layers. */
  method FindLayer(available: seq<string>, name: string) returns (found: bool)
    ensures found <==> name in available
  {
    found := false;
    var j := 0;
    while j < |available| && !found
      invariant 0 <= j <= |available|
      invariant found <==> name in available[..j]
    {
      assert available[..j + 1] == available[..j] + [available[j]];
      found := available[j] == name;
      j := j + 1;
    }
    if !found {
      assert available[..j] == available;
    }
  }

  /** Every layer to enable is returned, in order, available or not; each unavailable
      one only produces a warning line. */
  method GetValidationLayers(available: seq<string>) returns (layers: seq<string>, warnings: seq<string>)
    ensures layers == LayersToEnable
    ensures var missing := Unavailable(LayersToEnable, available);
      |warnings| == |missing| && forall j :: 0 <= j < |warnings| ==> warnings[j] == MissingLayerMessage(missing[j])
  {
    layers, warnings := [], [];
    for i := 0 to |LayersToEnable|
      invariant layers == LayersToEnable[..i]
      invariant var missing := Unavailable(LayersToEnable[..i], available);
        |warnings| == |missing| && forall j :: 0 <= j < |warnings| ==> warnings[j] == MissingLayerMessage(missing[j])
    {
      var layerToEnable := LayersToEnable[i];
      assert LayersToEnable[..i + 1][..i] == LayersToEnable[..i];
      var found := FindLayer(available, layerToEnable);
      if !found {
        warnings := warnings + [MissingLayerMessage(layerToEnable)];
      }
      layers := layers + [layerToEnable];
    }
  }

  /** The windowing library's extensions in their given order, then debug utils. */
  method GetExtensions(windowExtensions: seq<string>) returns (extensions: seq<string>)
    ensures |extensions| == |windowExtensions| + 1
    ensures extensions[..|windowExtensions|] == windowExtensions
    ensures extensions[|windowExtensions|] == DebugUtilsExtensionName
  {
    extensions := [];
    for i := 0 to |windowExtensions|
      invariant extensions == windowExtensions[..i]
    {
      extensions := extensions + [windowExtensions[i]];
    }
    extensions := extensions + [DebugUtilsExtensionName];
  }

  // ---------------------------------------------------------------------------
  // Resources and their order
  // ---------------------------------------------------------------------------

  /** The handles the application acquires; `GlfwLibrary` stands for `glfwInit` and
      its release for `glfwTerminate`. */
  datatype Resource = GlfwLibrary | Window | Instance | Messenger | Surface | Device

  const CreationOrder: seq<Resource> := [GlfwLibrary, Window, Instance, Messenger, Surface, Device]

  /** The sequence read back to front. */
  function Reverse<T>(s: seq<T>): seq<T>
  {
    seq(|s|, k requires 0 <= k < |s| => s[|s| - 1 - k])
  }

  /** Reversal keeps every element's count: nothing is dropped or duplicated. */
  lemma {:induction false} ReverseIsPermutation<T>(s: seq<T>)
    ensures multiset(Reverse(s)) == multiset(s)
    decreases |s|
  {
    if s != [] {
      ReverseIsPermutation(s[1..]);
      assert Reverse(s) == Reverse(s[1..]) + [s[0]];
      assert s == [s[0]] + s[1..];
    }
  }

  /** The order in which `cleanup` releases the handles. */
  const ReleaseOrder: seq<Resource> := [Device, Surface, Messenger, Instance, Window, GlfwLibrary]

  /** The release order is the creation order read backwards; no handle is released
      twice and none is left out. */
  lemma ReleaseOrderIsExactReverse()
    ensures Reverse(CreationOrder) == ReleaseOrder
    ensures forall i, j :: 0 <= i < j < |ReleaseOrder| ==> ReleaseOrder[i] != ReleaseOrder[j]
  {
    var r := Reverse(CreationOrder);
    assert |r| == 6;
    assert r[0] == Device && r[1] == Surface && r[2] == Messenger;
    assert r[3] == Instance && r[4] == Window && r[5] == GlfwLibrary;
  }

  // ---------------------------------------------------------------------------
  // Driver inputs and initialisation outcomes
  // ---------------------------------------------------------------------------

  datatype PhysicalDevice = PhysicalDevice(deviceName: string, queueFamilies: seq<QueueFamily>)

  /** What the driver and the windowing library answer during start-up. */
  datatype Driver = Driver(
    availableLayers: seq<string>,         // instance layer enumeration
    windowExtensions: seq<string>,        // extensions the windowing library requires
    instanceCreates: bool,
    messengerCreates: bool,
    surfaceCreates: bool,
    physicalDevices: seq<PhysicalDevice>, // physical-device enumeration
    deviceCreates: bool)

  /** The requests passed to instance creation. */
  datatype InstanceCreateInfo = InstanceCreateInfo(
    enabledLayers: seq<string>,
    enabledExtensions: seq<string>,
    chainsDebugMessengerInfo: bool)

  /** A queue handle: family index and queue index within the family. */
  datatype Queue = Queue(familyIndex: nat, queueIndex: nat)

  /** The exceptions that escape `initVulkan`. */
  datatype InitError =
    | InstanceCreationFailed
    | MessengerCreationFailed
    | SurfaceCreationFailed   // "Failed to create window surface."
    | NoPhysicalDevice        // "Failed to find any GPUs supporting Vulkan"
    | NoSuitableQueueFamily   // "Failed to find a queue supporting graphics."
    | DeviceCreationFailed

  datatype Outcome = Success | Failure(error: InitError)

  /** How device creation ends for the given driver answers. */
  function DeviceOutcome(d: Driver): (o: Outcome)
  {
    if d.physicalDevices == [] then Failure(NoPhysicalDevice)
    else if !ResolvedIndices(d.physicalDevices[0].queueFamilies).IsComplete() then Failure(NoSuitableQueueFamily)
    else if !d.deviceCreates then Failure(DeviceCreationFailed)
    else Success
  }

  /** Device creation fails on the queue families exactly when the first device lacks a
      graphics family or a present-capable family; only the first device is looked at. */
  lemma DeviceOutcomeQueueFamilies(d: Driver)
    ensures DeviceOutcome(d) == Failure(NoSuitableQueueFamily) <==>
      d.physicalDevices != [] &&
      var fs := d.physicalDevices[0].queueFamilies;
      !((exists g :: 0 <= g < |fs| && fs[g].hasGraphics) && (exists p :: 0 <= p < |fs| && fs[p].presentSupported))
  {
    if d.physicalDevices != [] {
      ResolvedIndicesSound(d.physicalDevices[0].queueFamilies);
    }
  }

  /** How `initVulkan` ends: the first failing step decides. */
  function InitOutcome(d: Driver): Outcome
  {
    if !d.instanceCreates then Failure(InstanceCreationFailed)
    else if !d.messengerCreates then Failure(MessengerCreationFailed)
    else if !d.surfaceCreates then Failure(SurfaceCreationFailed)
    else DeviceOutcome(d)
  }

  /** Whether `initVulkan` gets as far as device creation. */
  predicate ReachesDevice(d: Driver)
  {
    d.instanceCreates && d.messengerCreates && d.surfaceCreates
  }

  /** The queue requests for complete indices: one single-queue entry per distinct family,
      in ascending family order. */
  predicate QueueRequestsFor(infos: seq<DeviceQueueCreateInfo>, indices: QueueFamilyIndices)
    requires indices.IsComplete()
  {
    var g, p := indices.graphics.value, indices.present.value;
    && FamiliesOf(infos) == {g, p}
    && |infos| == (if g == p then 1 else 2)
    && (forall j :: 0 <= j < |infos| ==> infos[j].queueCount == 1)
    && (forall j, k :: 0 <= j < k < |infos| ==> infos[j].queueFamilyIndex < infos[k].queueFamilyIndex)
  }

  /** How many handles of `CreationOrder` are held when initialisation stops. */
  function AcquiredCount(d: Driver): (n: nat)
    ensures 2 <= n <= |CreationOrder|
    ensures n == |CreationOrder| <==> InitOutcome(d).Success?
    ensures InitOutcome(d) == Failure(InstanceCreationFailed) <==> n == 2
  {
    if !d.instanceCreates then 2
    else if !d.messengerCreates then 3
    else if !d.surfaceCreates then 4
    else if DeviceOutcome(d).Failure? then 5
    else 6
  }

  // ---------------------------------------------------------------------------
  // The application
  // ---------------------------------------------------------------------------

  class HelloTriangleApplication {
    var acquired: seq<Resource>         // handles acquired so far, in order
    var released: seq<Resource>         // handles released so far, in order
    var diagnostics: seq<string>        // lines written to the error stream
    var instanceInfo: Option<InstanceCreateInfo>
    var physicalDevice: Option<PhysicalDevice>
    var queueFamilyIndices: QueueFamilyIndices
    var queueCreateInfos: seq<DeviceQueueCreateInfo>   // the queue requests passed to device creation
    var graphicsQueue: Option<Queue>
    var presentQueue: Option<Queue>

    /** The state of a freshly constructed application. */
    predicate Pristine()
      reads this
    {
      acquired == [] && released == [] && diagnostics == [] && instanceInfo == None &&
      physicalDevice == None && queueFamilyIndices == NoIndices && queueCreateInfos == [] &&
      graphicsQueue == None && presentQueue == None
    }

    constructor ()
      ensures Pristine()
    {
      acquired, released, diagnostics := [], [], [];
      instanceInfo, physicalDevice := None, None;
      queueFamilyIndices, queueCreateInfos := NoIndices, [];
      graphicsQueue, presentQueue := None, None;
    }

    /** `glfwInit`, then the window (the window hints are not modelled). */
    method InitWindow()
      requires acquired == []
      modifies this`acquired
      ensures acquired == CreationOrder[..2]
    {
      acquired := acquired + [GlfwLibrary];
      acquired := acquired + [Window];
    }

    /** Instance creation with the layers and extensions built above, then the debug
        messenger. The layer list is passed as built, unavailable layers included. */
    method CreateInstance(d: Driver) returns (outcome: Outcome)
      requires acquired == CreationOrder[..2]
      modifies this`acquired, this`diagnostics, this`instanceInfo
      ensures instanceInfo == Some(InstanceCreateInfo(LayersToEnable, d.windowExtensions + [DebugUtilsExtensionName], true))
      ensures diagnostics == old(diagnostics) + MissingLayerWarnings(d.availableLayers)
      ensures outcome == (if !d.instanceCreates then Failure(InstanceCreationFailed)
                          else if !d.messengerCreates then Failure(MessengerCreationFailed)
                          else Success)
      ensures acquired == CreationOrder[..if !d.instanceCreates then 2 else if !d.messengerCreates then 3 else 4]
    {
      var layersToEnable, warnings := GetValidationLayers(d.availableLayers);
      assert warnings == MissingLayerWarnings(d.availableLayers);
      diagnostics := diagnostics + warnings;
      var enabledLayers, chained := [], false;
      if layersToEnable != [] {
        enabledLayers, chained := layersToEnable, true;
      }
      var extensionsToEnable := GetExtensions(d.windowExtensions);
      assert extensionsToEnable == d.windowExtensions + [DebugUtilsExtensionName];
      instanceInfo := Some(InstanceCreateInfo(enabledLayers, extensionsToEnable, chained));
      if !d.instanceCreates {
        return Failure(InstanceCreationFailed);
      }
      acquired := acquired + [Instance];
      if !d.messengerCreates {
        return Failure(MessengerCreationFailed);
      }
      acquired := acquired + [Messenger];
      outcome := Success;
    }

    method CreateSurface(d: Driver) returns (outcome: Outcome)
      requires acquired == CreationOrder[..4]
      modifies this`acquired
      ensures outcome == (if d.surfaceCreates then Success else Failure(SurfaceCreationFailed))
      ensures acquired == CreationOrder[..if d.surfaceCreates then 5 else 4]
    {
      if !d.surfaceCreates {
        return Failure(SurfaceCreationFailed);
      }
      acquired := acquired + [Surface];
      outcome := Success;
    }

    /** The family search over the chosen device's queue families: each matching family
        overwrites the index recorded so far, and the loop stops once both are set. */
    method SearchQueueFamilies(families: seq<QueueFamily>)
      requires queueFamilyIndices == NoIndices
      modifies this`queueFamilyIndices
      ensures queueFamilyIndices == ResolvedIndices(families)
    {
      var i := 0;
      while i < |families|
        invariant 0 <= i <= |families|
        invariant queueFamilyIndices == IndicesAfter(families, i)
        invariant SearchEnd(families, 0) == SearchEnd(families, i)
        invariant !IndicesAfter(families, i).IsComplete()
      {
        if families[i].hasGraphics {
          queueFamilyIndices := queueFamilyIndices.(graphics := Some(i));
        }
        if families[i].presentSupported {
          queueFamilyIndices := queueFamilyIndices.(present := Some(i));
        }
        assert queueFamilyIndices == IndicesAfter(families, i + 1);
        if queueFamilyIndices.IsComplete() {
          assert SearchEnd(families, i + 1) == i + 1;
          break;
        }
        i := i + 1;
      }
    }

    /** Picks the first physical device, resolves the queue families, builds one queue
        request per distinct family, creates the device and fetches queue 0 of the
        graphics and the present family. */
    method CreateDevice(d: Driver) returns (outcome: Outcome)
      requires acquired == CreationOrder[..5]
      requires physicalDevice == None && queueFamilyIndices == NoIndices
      modifies this`acquired, this`diagnostics, this`physicalDevice, this`queueFamilyIndices,
               this`queueCreateInfos, this`graphicsQueue, this`presentQueue
      ensures outcome == DeviceOutcome(d)
      ensures acquired == CreationOrder[..if outcome.Success? then 6 else 5]
      ensures d.physicalDevices == [] ==>
        physicalDevice == None && queueFamilyIndices == NoIndices && diagnostics == old(diagnostics)
      ensures d.physicalDevices != [] ==>
        physicalDevice == Some(d.physicalDevices[0]) &&
        queueFamilyIndices == ResolvedIndices(d.physicalDevices[0].queueFamilies) &&
        diagnostics == old(diagnostics) + [SelectedDeviceMessage(d.physicalDevices[0].deviceName)]
      ensures !(d.physicalDevices != [] && queueFamilyIndices.IsComplete()) ==>
        queueCreateInfos == old(queueCreateInfos)
      ensures d.physicalDevices != [] && queueFamilyIndices.IsComplete() ==>
        QueueRequestsFor(queueCreateInfos, queueFamilyIndices)
      ensures outcome == Success ==>
        graphicsQueue == Some(Queue(queueFamilyIndices.graphics.value, 0)) &&
        presentQueue == Some(Queue(queueFamilyIndices.present.value, 0))
      ensures outcome != Success ==> graphicsQueue == old(graphicsQueue) && presentQueue == old(presentQueue)
    {
      if d.physicalDevices == [] {
        return Failure(NoPhysicalDevice);
      }
      physicalDevice := Some(d.physicalDevices[0]);
      diagnostics := diagnostics + [SelectedDeviceMessage(d.physicalDevices[0].deviceName)];

      SearchQueueFamilies(d.physicalDevices[0].queueFamilies);
      if !queueFamilyIndices.IsComplete() {
        return Failure(NoSuitableQueueFamily);
      }

      queueCreateInfos := QueueCreateInfos(queueFamilyIndices.UniqueQueueFamilies());
      if !d.deviceCreates {
        return Failure(DeviceCreationFailed);
      }
      acquired := acquired + [Device];
      graphicsQueue := Some(Queue(queueFamilyIndices.graphics.value, 0));
      presentQueue := Some(Queue(queueFamilyIndices.present.value, 0));
      outcome := Success;
    }

    /** Instance, surface, device, in that order; the first failure propagates. */
    method InitVulkan(d: Driver) returns (outcome: Outcome)
      requires acquired == CreationOrder[..2]
      requires physicalDevice == None && queueFamilyIndices == NoIndices
      modifies this`acquired, this`diagnostics, this`instanceInfo, this`physicalDevice,
               this`queueFamilyIndices, this`queueCreateInfos, this`graphicsQueue, this`presentQueue
      ensures outcome == InitOutcome(d)
      ensures acquired == CreationOrder[..AcquiredCount(d)]
      ensures instanceInfo == Some(InstanceCreateInfo(LayersToEnable, d.windowExtensions + [DebugUtilsExtensionName], true))
      ensures var chosen := ReachesDevice(d) && d.physicalDevices != [];
        && diagnostics == old(diagnostics) + MissingLayerWarnings(d.availableLayers) +
             (if chosen then [SelectedDeviceMessage(d.physicalDevices[0].deviceName)] else [])
        && physicalDevice == (if chosen then Some(d.physicalDevices[0]) else None)
        && queueFamilyIndices == (if chosen then ResolvedIndices(d.physicalDevices[0].queueFamilies) else NoIndices)
        && (chosen && queueFamilyIndices.IsComplete() ==> QueueRequestsFor(queueCreateInfos, queueFamilyIndices))
        && (!(chosen && queueFamilyIndices.IsComplete()) ==> queueCreateInfos == old(queueCreateInfos))
      ensures outcome == Success ==>
        graphicsQueue == Some(Queue(queueFamilyIndices.graphics.value, 0)) &&
        presentQueue == Some(Queue(queueFamilyIndices.present.value, 0))
      ensures outcome != Success ==> graphicsQueue == old(graphicsQueue) && presentQueue == old(presentQueue)
    {
      outcome := CreateInstance(d);
      if outcome.Failure? {
        return;
      }
      outcome := CreateSurface(d);
      if outcome.Failure? {
        return;
      }
      outcome := CreateDevice(d);
    }

    /** Releases every handle, the device first and the windowing library last. */
    method Cleanup()
      requires acquired == CreationOrder
      modifies this`released
      ensures released == old(released) + Reverse(acquired)
      ensures released == old(released) + ReleaseOrder
      ensures multiset(released) == multiset(old(released)) + multiset(acquired)
    {
      released := released + [Device];
      released := released + [Surface];
      released := released + [Messenger];
      released := released + [Instance];
      released := released + [Window];
      released := released + [GlfwLibrary];
      assert released == old(released) + ReleaseOrder;
      ReleaseOrderIsExactReverse();
      ReverseIsPermutation(acquired);
    }

    /** `run()`: window, then Vulkan, then (after the event loop) cleanup. An exception
        from initialisation propagates before cleanup, so nothing is released then. */
    method Run(d: Driver) returns (outcome: Outcome)
      requires Pristine()
      modifies this
      ensures outcome == InitOutcome(d)
      ensures acquired == CreationOrder[..AcquiredCount(d)]
      ensures outcome.Success? ==> released == Reverse(acquired) && multiset(released) == multiset(acquired)
      ensures outcome.Failure? ==> released == []
      ensures instanceInfo == Some(InstanceCreateInfo(LayersToEnable, d.windowExtensions + [DebugUtilsExtensionName], true))
      ensures var chosen := ReachesDevice(d) && d.physicalDevices != [];
        && diagnostics == MissingLayerWarnings(d.availableLayers) +
             (if chosen then [SelectedDeviceMessage(d.physicalDevices[0].deviceName)] else [])
        && physicalDevice == (if chosen then Some(d.physicalDevices[0]) else None)
        && queueFamilyIndices == (if chosen then ResolvedIndices(d.physicalDevices[0].queueFamilies) else NoIndices)
        && (chosen && queueFamilyIndices.IsComplete() ==> QueueRequestsFor(queueCreateInfos, queueFamilyIndices))
        && (!(chosen && queueFamilyIndices.IsComplete()) ==> queueCreateInfos == [])
      ensures outcome.Success? ==>
        && QueueRequestsFor(queueCreateInfos, queueFamilyIndices)
        && 1 <= |queueCreateInfos| <= 2
        && graphicsQueue == Some(Queue(queueFamilyIndices.graphics.value, 0))
        && presentQueue == Some(Queue(queueFamilyIndices.present.value, 0))
      ensures outcome.Failure? ==> graphicsQueue == None && presentQueue == None
    {
      InitWindow();
      outcome := InitVulkan(d);
      if outcome.Failure? {
        return;
      }
      // The event loop runs here until the window is closed.
      Cleanup();
    }
  }
}
