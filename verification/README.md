# vulkan-playground: start-up bookkeeping and the resource compiler, in Dafny

This project models the two pieces of logic in vulkan-playground that do more than call
into Vulkan or GLFW, and proves properties of them.

- **The resource compiler** (`resource_compiler.dfy`, module `ResourceCompiler`). This
  command-line tool reads a binary file and writes C source declaring
  `const unsigned char rc_data_<name>[]` and `const size_t rc_size_<name>`.
  - `ParseArguments` models the argument loop. It reads (flag, value) pairs from
    positions 1, 3, 5, … and only runs when the argument count is odd.
  - `Generate` models the code-generation loop. It builds the text byte by byte, and its
    loop invariant ties the text built so far to the pure `GeneratedSource`.
  - `CompileResource` models `main`. It validates the settings, then opens and reads the
    input, then opens and writes the output.
  - Bytes are integers in `0..255`. `ParseGenerated` reads a generated file back, and the
    round trip is proved.
- **The application's start-up and shut-down** (`hello_triangle.dfy`, module
  `HelloTriangle`).
  - `QueueFamilyIndices` is the struct with two optional indices, with its completeness
    predicate and its unique-family set.
  - `HelloTriangleApplication` is a class. Its fields `physicalDevice`,
    `queueFamilyIndices`, `graphicsQueue` and `presentQueue` are the application's own
    members. Its fields `acquired`, `released`, `diagnostics`, `instanceInfo` and
    `queueCreateInfos` are observation fields: they record what the code acquires,
    releases, prints to the error stream and passes to instance and device creation.
    In the code, the two creation requests are locals of `createInstance` and
    `createDevice`.
  - Its methods follow `initWindow`, `createInstance`, `createSurface`, `createDevice`,
    `initVulkan`, `cleanup` and `run`.
  - The family search is a loop that overwrites the indices field. It is proved against
    `ResolvedIndices`, a definition by "largest capable index up to the stopping point".
  - Every driver or windowing-library answer is a field of the `Driver` input record.
  - `options.dfy` holds the `Option` type used by both modules.

Points where the code's behaviour is easy to misread, and which the model follows:

- The family search **overwrites** an index on every matching family until both are set
  (`src/main.cpp:152-155`); it does not keep the first match. `OverwritingExample`
  exhibits the difference.
- `run()` calls `cleanup()` only after `initVulkan()` returns normally
  (`src/main.cpp:33-38`). `cleanup()` never runs after a failed initialisation, so nothing
  is released then. `Run` states this: `released == []` on failure.
- `getValidationLayers` returns a requested layer even when the driver does not list it.
  It only prints a warning ("ignoring"), and instance creation then receives the layer
  (`src/main.cpp:79-83`).
- Device creation requests no device extensions and checks nothing about the first
  physical device before choosing it (`src/main.cpp:145`, `172-175`).

## Model

| member | source | states |
|---|---|---|
| `ResourceCompiler.ParseArguments` | ResourceCompiler/ResourceCompiler.cpp:8-18 | The three settings are exactly what `SettingsOf` gives: for each flag, the value of its last occurrence among the pairs at positions 1-2, 3-4, …; with an even argument count all three stay empty |
| `ResourceCompiler.LookupIsLastOccurrence` | ResourceCompiler/ResourceCompiler.cpp:12-18 | A flag's value is the value of its last occurrence, and "" when it never occurs; pairs with other flags (unknown ones included) have no effect |
| `ResourceCompiler.LaterFlagOverrides` | ResourceCompiler/ResourceCompiler.cpp:12-18 | Appending one more pair to an odd-length command line adds exactly that pair, and its value overrides any earlier value of the flag |
| `ResourceCompiler.CompileResource` | ResourceCompiler/ResourceCompiler.cpp:6-67 | It fails with "Invalid arguments" exactly when a setting is empty (always for an even count). With complete settings, an input that does not open fails naming the input path, one that does not read fails naming the input path, an output that does not open fails naming the output path, and a failing write fails naming the output path. It produces output exactly when the settings are complete, the input opens and reads, and the output opens and writes. That output goes to the output path and is `GeneratedSource(name, input bytes)` |
| `ResourceCompiler.Hex` | ResourceCompiler/ResourceCompiler.cpp:55 | A byte prints as 1 or 2 lowercase hex digits, 2 exactly when it is at least 16, with no leading zero; the digits' value is the byte |
| `ResourceCompiler.HexDigit` | ResourceCompiler/ResourceCompiler.cpp:55 | Each digit is a lowercase hex character whose value is the digit |
| `ResourceCompiler.Generate` | ResourceCompiler/ResourceCompiler.cpp:51-58 | The loop's text equals `GeneratedSource`. It starts with `const unsigned char rc_data_<name>[] = {` and ends with `};` followed by two newlines and `const size_t rc_size_<name> = sizeof(rc_data_<name>);`. Empty input gives `{};` |
| `ResourceCompiler.BodyAppend` | ResourceCompiler/ResourceCompiler.cpp:52-56 | Emitting byte `i` extends the body by exactly its token: a newline when `i % 100 == 0`, then `0x<hex>,` |
| `ResourceCompiler.TokenCounts` | ResourceCompiler/ResourceCompiler.cpp:54-55 | Each token holds exactly one comma, and one line break exactly when its index is a multiple of 100 |
| `ResourceCompiler.BodyCounts` | ResourceCompiler/ResourceCompiler.cpp:52-56 | The body holds exactly one comma-terminated token per input byte and exactly ⌈n/100⌉ line breaks |
| `ResourceCompiler.ReadTokenOfHex` | ResourceCompiler/ResourceCompiler.cpp:55 | Reading a printed token back yields the byte and the rest of the text |
| `ResourceCompiler.DecodeBodyFrom` | ResourceCompiler/ResourceCompiler.cpp:52-56 | Decoding an array body, skipping line breaks, gives back exactly the bytes it was generated from, in order |
| `ResourceCompiler.RoundTrip` | ResourceCompiler/ResourceCompiler.cpp:51-58 | Parsing a generated file for the same name returns exactly the input bytes |
| `HelloTriangle.QueueFamilyIndices.IsComplete` | src/main.cpp:18-20 | Definition, no contract of its own: the source's `graphics.has_value() && present.has_value()` (src/main.cpp:19) as `graphics.Some? && present.Some?`. The contracts of `UniqueQueueFamilies`, `SearchEnd`, `ResolvedIndicesSound` and `CreateDevice` are stated in terms of it |
| `HelloTriangle.QueueFamilyIndices.UniqueQueueFamilies` | src/main.cpp:14-28 | The set holds exactly the indices that are set. It has at most 2 elements; when complete, 1 exactly when graphics equals present and 2 otherwise; at most 1 when incomplete |
| `HelloTriangle.LastSupporting` | src/main.cpp:150-153 | After visiting families below n, the recorded index is the largest capable one below n, or none when none is capable |
| `HelloTriangle.SearchEnd` | src/main.cpp:150-156 | The search visits families up to the first prefix after which both indices are set, or all families; no shorter prefix is complete |
| `HelloTriangle.IndicesAfterComplete` | src/main.cpp:152-155 | Both indices are set after visiting families 0..k exactly when some family up to k supports graphics and some supports presentation |
| `HelloTriangle.SearchStopsAtFirstCompleteIndex` | src/main.cpp:150-156 | If k is the first index by which both capabilities have been seen, the result is complete. Graphics is then the largest graphics-capable index ≤ k, and present the largest present-capable index ≤ k |
| `HelloTriangle.ResolvedIndicesSound` | src/main.cpp:150-157 | The search ends complete exactly when some family supports graphics and some supports presentation; a set index always names a capable family (never a default 0) |
| `HelloTriangle.OverwritingExample` | src/main.cpp:152-153 | With graphics in families 0 and 1 and presentation only in 2, the search yields graphics 1, present 2 |
| `HelloTriangle.HelloTriangleApplication.SearchQueueFamilies` | src/main.cpp:149-156 | Starting from empty indices, the loop leaves the indices field equal to `ResolvedIndices` of the device's families |
| `HelloTriangle.QueueCreateInfos` | src/main.cpp:159-168 | One entry per family of the set, each with one queue; they cover exactly the set, in strictly ascending family order |
| `HelloTriangle.Unavailable` | src/main.cpp:75-82 | A name is reported missing exactly when it is requested and not in the available list |
| `HelloTriangle.FindLayer` | src/main.cpp:77-78 | The search finds a layer exactly when its name is in the available list |
| `HelloTriangle.GetValidationLayers` | src/main.cpp:65-87 | Every layer to enable is returned, in order, available or not; one warning line per unavailable layer, in order |
| `HelloTriangle.GetExtensions` | src/main.cpp:89-100 | The windowing library's extensions in their order, then the debug-utils extension; length is their count plus one |
| `HelloTriangle.ReverseIsPermutation` | src/main.cpp:216-226 | Reversing keeps every element's count: teardown releases exactly the handles acquired |
| `HelloTriangle.ReleaseOrderIsExactReverse` | src/main.cpp:216-226 | Release order device, surface, messenger, instance, window, library is the creation order reversed, with no handle twice |
| `HelloTriangle.DeviceOutcomeQueueFamilies` | src/main.cpp:142-157 | Device creation fails for lack of queue families exactly when there is a device and its FIRST device lacks a graphics family or a present-capable family |
| `HelloTriangle.AcquiredCount` | src/main.cpp:201-206 | At least the library and the window are held when initialisation stops; all six handles exactly when it succeeds; only those two exactly when instance creation fails |
| `HelloTriangle.HelloTriangleApplication.constructor` | src/main.cpp:44-53 | A new application holds no handles, has released and logged nothing, has no chosen device, empty queue-family indices, no queue requests and no queues |
| `HelloTriangle.HelloTriangleApplication.InitWindow` | src/main.cpp:55-63 | The library is initialised, then the window is created |
| `HelloTriangle.HelloTriangleApplication.CreateInstance` | src/main.cpp:102-131 | Instance creation is asked for the layers to enable (unavailable ones included) with the debug-messenger info chained, and for the extensions above. One warning per missing layer is logged. Then the instance and the messenger are acquired, or the first failing creation is reported |
| `HelloTriangle.HelloTriangleApplication.CreateSurface` | src/main.cpp:133-138 | The surface is acquired, or "Failed to create window surface." is reported and nothing changes |
| `HelloTriangle.HelloTriangleApplication.CreateDevice` | src/main.cpp:140-181 | No devices: fails, nothing chosen. Otherwise device 0 is chosen and the indices become `ResolvedIndices` of its families. If they are complete, the queue list has one single-queue entry per distinct family in ascending order (1 if graphics == present, else 2). On success the device is acquired and queue 0 of each family is fetched |
| `HelloTriangle.HelloTriangleApplication.InitVulkan` | src/main.cpp:201-206 | Instance, surface, device in that order; the outcome is the first failure or success, and the handles held are the matching prefix of the creation order. The instance request is the layers to enable with the messenger info chained, and the window extensions plus debug-utils. The log gains one warning per missing layer, then the selected-device line when device creation is reached and a device exists. The chosen device and the indices are device 0 and its resolved indices in that case, and none and empty otherwise. When those indices are complete, the queue list has one single-queue entry per distinct family in ascending order. On success both queues are queue 0 of their family; otherwise they are unchanged |
| `HelloTriangle.HelloTriangleApplication.Cleanup` | src/main.cpp:216-226 | Appends device, surface, messenger, instance, window, library to the release log: the acquisition log reversed, each handle once |
| `HelloTriangle.HelloTriangleApplication.Run` | src/main.cpp:33-38 | On success every acquired handle is released once, in exact reverse order. On an initialisation failure the error propagates with nothing released. The instance request, the log, the chosen device, the indices and the queue list end as `InitVulkan` states, starting from a new application. On success the queue list has 1 or 2 entries and both queues are set; on failure neither queue is |

## Left out

- File I/O in the resource compiler (`ifstream`, `tellg`, `read`, `ofstream`, `close`). `openInput` and `openOutput` say what opening each path yields: the bytes, or which step fails. On success the generated text is returned rather than written. On a failed write, the partial output left on disk is not modelled. The output is opened in text mode, so on platforms that translate line ends each newline is written as CR LF. `Token`, `Footer` and `RoundTrip` are about the text before that translation.
- The usage and error lines the resource compiler prints to the error stream. The model returns an error value naming the failing step instead.
- Integer widths. The byte index (`size_t`) and the queue-family index (`uint32_t`) are unbounded naturals, so lists longer than those types allow are not modelled.
- Every Vulkan and GLFW call. Their answers are fields of `Driver`: available layers, required window extensions, whether each creation succeeds, the physical devices and their queue families' capabilities.
  - Whether instance creation succeeds is an independent input. A driver rejecting an unavailable requested layer is one way for it to be false.
  - Failures of the queries that throw `vk::SystemError` are not modelled: `vk::enumerateInstanceLayerProperties` (`src/main.cpp:73`), `instance.enumeratePhysicalDevices` (`src/main.cpp:142`) and `getSurfaceSupportKHR` (`src/main.cpp:152`). Such a failure would end `initVulkan` in a way that neither `Driver` nor `InitError` represents.
- CreateInstance: `chainsDebugMessengerInfo` records only that `pNext` is set to the messenger create info. In the code that create info is a local of the `if` block (`src/main.cpp:120-121`), so its lifetime ends before `vk::createInstance` reads the chain (`src/main.cpp:128`). That read is undefined behaviour, and the model does not capture it: it treats the chain as valid.
- `glfwInit` and `glfwCreateWindow` results are not checked by the code. The model records the library and the window as acquired unconditionally.
- Fixed data handed to the driver is not modelled: the application-info names and versions, the window size and hints, the default device features, and the queue priority `1.0f`.
- `mainLoop`'s event polling, which has no state the model tracks.
- `debugCallback`, which only writes the message to the error stream and always returns `VK_FALSE`, and the messenger's severity and type flags.
- `main`'s mapping of `Run`'s outcome to an exit code: `Failure` is `EXIT_FAILURE` after printing the message, `Success` is `EXIT_SUCCESS`.
- Swapchain, render pass, pipeline, framebuffers and command buffers. They do not exist in this code.
- Teardown after a failed initialisation. The code never performs it, and `Run` states that nothing is released in that case.
