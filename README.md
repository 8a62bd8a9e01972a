# rpymostat-common host identifiers and entry-point loading, in Dafny

This project models the two pieces of decision logic in `rpymostat_common`.

**`SystemID`** works out a unique identifier for the host:

- `id_string` calls the methods listed in `id_methods` in order; `id_methods` is a class attribute that an instance may replace with its own. A method that returns `None` is skipped, and so is one that raises an `Exception`. The first other value is the identifier. When no method gives one, the result of `random_fallback()` is used.
- `raspberrypi_cpu` reads `/proc/cpuinfo`:
  - it finds the first `Hardware`, `Revision` and `Serial` lines;
  - it answers only when the hardware is a Raspberry Pi SoC (`BCM2708`, `BCM2709`);
  - the answer is `RaspberryPi/<model>/<serial>`, with the model looked up from the revision code in `rpi_revisions`.
- `uuid_getnode` formats the platform's node number as unpadded lowercase hex after `uuid.getnode_`.
- `random_fallback` is the 32-digit hex form of a random 128-bit UUID.

**`load_classes`** loads every entry point registered under a name:

- it keeps the loaded objects, optionally only the subclasses of a given class;
- it drops every entry point whose loading or subclass check raises, and carries on with the next.

Modules:

- `Wrappers`: `Option`.
- `Hex`:
  - `LowerHex` is Python's `'%x' % n`;
  - `FixedHex` is the zero-padded form that `uuid.UUID.hex` produces;
  - `HexValue` decodes both.
- `CpuInfo`: everything `raspberrypi_cpu` does with the text of `/proc/cpuinfo`, which is passed in as a string:
  - line splitting and the one-line matcher for the three patterns;
  - `re.search` as the first matching line;
  - `str.strip('0 ')`;
  - the two lookup tables (`rpi_revisions` is built from its entries in source order, the way a dict display is);
  - the decision itself (`RaspberrypiCpu`), with `IsRaspberryPi`, `ModelOf` and `SerialOf` naming its three inputs.
- `CpuInfoExamples`: the identifiers produced for concrete `/proc/cpuinfo` texts.
- `UniqueIds`:
  - the `Strategy` and `Outcome` types;
  - `Resolve`, the identifier `id_string` settles on;
  - `FirstValueIndex`, the strategy that supplies it;
  - the class `SystemId`, with the `idMethods` field and the `IdString` method;
  - `RunStrategy`, which gives each strategy's outcome on a `Host`.
- `Loader`:
  - `Kept` is the filter `load_classes` applies;
  - `LoadClasses` is the loop, proved against `Kept`.

Two facts about the code that are easy to miss:

- `uuid_getnode` formats with `'%x'`, so the node is not zero padded. `UuidGetnodeId` states that the digits have no leading zero.
- The serial is cleaned with `strip('0 ')`. That removes zeros and spaces at **both** ends, trailing zeros included, so different serials can collide.
  - `CpuInfo.SerialsCollide` shows this: `00000000ae463400` and `0000000000ae4634` give the same serial field.
  - `CpuInfo.StripLeadingInjective` shows that removing leading zeros alone would not lose this information.

Regular expressions are modelled as a matcher over one line at a time:

- `\s` is ASCII whitespace other than a newline;
- `\w` is ASCII letters, digits and `_`;
- `IGNORECASE` folds ASCII letters in the key.

`search` with `MULTILINE` returns the capture of the first line that matches. In Python `\s` can also match a newline, so the real patterns would also match a key and value split over several lines; the model does not (see "Left out").

## Model

| member | source | states |
|---|---|---|
| UniqueIds.SystemId.constructor | rpymostat_common/unique_ids.py:53-56 | a new SystemID consults `raspberrypi_cpu`, then `uuid_getnode` |
| UniqueIds.Resolve | rpymostat_common/unique_ids.py:116-133 | the identifier `id_string` settles on is either the fallback or the value some listed strategy gave; `ResolveByIndex` pins it to the first such strategy |
| UniqueIds.RunStrategy | rpymostat_common/unique_ids.py:145-195 | what one strategy call yields on a host: `raspberrypi_cpu` raises exactly when `/proc/cpuinfo` cannot be read, `uuid_getnode` raises exactly when `uuid.getnode()` does, `random_fallback` never raises; None comes only from `raspberrypi_cpu` on a machine that is not a Pi |
| UniqueIds.SystemId.IdString | rpymostat_common/unique_ids.py:104-133 | the identifier is the first value in `idMethods` order, or the fallback when there is none; `via` is the index of the strategy that gave it; the methods called are exactly those up to and including that one (all of them when none gives a value), so no later method is consulted |
| UniqueIds.FirstValueIndex | rpymostat_common/unique_ids.py:116-123 | the index returned gives a value and no earlier strategy does; None exactly when no strategy gives a value |
| UniqueIds.ResolveByIndex | rpymostat_common/unique_ids.py:116-133 | the identifier is the value at the first index that gives one, and the fallback when there is no such index |
| UniqueIds.ResolveFirstValue | rpymostat_common/unique_ids.py:116-123 | when strategy i gives a value and none before it does, the identifier is that value |
| UniqueIds.ResolveExhausted | rpymostat_common/unique_ids.py:128-133 | when no listed strategy gives a value, including with an empty list, the identifier is what `random_fallback()` returns |
| UniqueIds.ResolveRaisedLikeNone | rpymostat_common/unique_ids.py:118-127 | a strategy that raises is treated like one returning None: probes that agree on every value give the same identifier |
| UniqueIds.ResolveSkipsNoValue | rpymostat_common/unique_ids.py:118-127 | a listed strategy that raises or returns None can be removed from the list, at any position, without changing the identifier |
| UniqueIds.ResolveShortCircuit | rpymostat_common/unique_ids.py:120-123 | once a strategy gives a value, the strategies after it and the fallback do not affect the identifier |
| UniqueIds.RaisingStrategySkipped | rpymostat_common/tests/test_unique_ids.py:65-84 | with `raspberrypi_cpu` giving None, `random_fallback` raising and `uuid_getnode` giving 'uuidgetnode', the identifier is 'uuidgetnode' from the third strategy |
| UniqueIds.ListedFallbackUsed | rpymostat_common/tests/test_unique_ids.py:92-111 | with `random_fallback` in the list giving 'fallback' and the others None, the identifier is 'fallback' from the second strategy |
| UniqueIds.DefaultResolution | rpymostat_common/unique_ids.py:53-56 | on a host, a new SystemID gives the Raspberry Pi identifier when `/proc/cpuinfo` shows a Pi; otherwise the node identifier when `uuid.getnode()` succeeds; otherwise the random identifier |
| UniqueIds.IdentifierKindsDisjoint | rpymostat_common/unique_ids.py:166-195 | a Raspberry Pi identifier, a node identifier and a random identifier never coincide |
| UniqueIds.UuidGetnodeId | rpymostat_common/unique_ids.py:182 | the identifier is 'uuid.getnode_' followed by hex digits that decode to the node, with no leading zero (no padding) |
| UniqueIds.UuidGetnodeInjective | rpymostat_common/unique_ids.py:182 | distinct nodes give distinct identifiers |
| UniqueIds.UuidGetnodeExample | rpymostat_common/tests/test_unique_ids.py:117-121 | node 163683361899416 gives 'uuid.getnode_94de80a44398' |
| UniqueIds.RandomFallbackId | rpymostat_common/unique_ids.py:195 | the identifier is exactly 32 hex digits that decode to the drawn 128-bit value |
| UniqueIds.RandomFallbackInjective | rpymostat_common/unique_ids.py:195 | distinct draws give distinct identifiers |
| Hex.LowerHex | rpymostat_common/unique_ids.py:182 | `'%x'` gives non-empty lowercase hex digits with no leading zero, and they decode back to n |
| Hex.LowerHexCanonical | rpymostat_common/unique_ids.py:182 | every digit string without a leading zero that denotes n is `'%x' % n`, so the rendering is the unique canonical one |
| Hex.FixedHex | rpymostat_common/unique_ids.py:195 | the rendering is exactly `width` hex digits, and it decodes to n when n fits |
| CpuInfo.Split | rpymostat_common/unique_ids.py:59-68 | the lines of the text hold no newline, and joining them with newlines gives back the text |
| CpuInfo.MatchLine | rpymostat_common/unique_ids.py:59-68 | one line against a pattern: any capture is a non-empty word; `MatchLineComplete` and `MatchLineSound` characterise exactly which lines match |
| CpuInfo.Search | rpymostat_common/unique_ids.py:147-149 | `search` over the whole text: every capture is a non-empty string of word characters; `FirstMatchAt`, `FirstMatchNone` and `FirstMatchFrom` show it is the first matching line's |
| CpuInfo.MatchLineComplete | rpymostat_common/unique_ids.py:59-68 | every line made of the key (in any case), whitespace, ':', whitespace and a word matches and captures that word |
| CpuInfo.MatchLineSound | rpymostat_common/unique_ids.py:59-68 | a line matches only if it has that shape, and the capture is its final word |
| CpuInfo.FirstMatchAt | rpymostat_common/unique_ids.py:147-149 | `search` returns the capture of the first matching line |
| CpuInfo.FirstMatchNone | rpymostat_common/unique_ids.py:147-149 | `search` finds nothing exactly when no line matches |
| CpuInfo.FirstMatchFrom | rpymostat_common/unique_ids.py:147-149 | a capture from `search` comes from some line that matches, and no earlier line matches |
| CpuInfo.StripLeading | rpymostat_common/unique_ids.py:152 | the part removed from the front is only '0' and ' ', and what is left does not start with either |
| CpuInfo.StripTrailing | rpymostat_common/unique_ids.py:152 | the part removed from the end is only '0' and ' ', and what is left does not end with either |
| CpuInfo.Strip | rpymostat_common/unique_ids.py:152 | `strip('0 ')` never lengthens the serial, and what it leaves neither starts nor ends with '0' or ' ' |
| CpuInfo.StripIsSlice | rpymostat_common/unique_ids.py:152 | `strip('0 ')` gives the slice left after removing every '0' and ' ' at both ends |
| CpuInfo.StripIdempotent | rpymostat_common/unique_ids.py:152 | stripping twice is stripping once |
| CpuInfo.StripExact | rpymostat_common/unique_ids.py:152 | zeros and spaces around a core that neither starts nor ends with one are all removed |
| CpuInfo.SerialsCollide | rpymostat_common/unique_ids.py:152 | two different serials of the same length, one being the other's core shifted right past its trailing zeros, give the same serial field |
| CpuInfo.StripLeadingInjective | rpymostat_common/unique_ids.py:152 | removing leading zeros alone loses nothing: two word serials of equal length that agree after it are equal |
| CpuInfo.DictOfAt | rpymostat_common/unique_ids.py:76-101 | in a dict display, the value under a key is the value of that key's last entry |
| CpuInfo.DictOfAbsent | rpymostat_common/unique_ids.py:76-101 | a key with no entry is not in the dict |
| CpuInfo.DictOfKeys | rpymostat_common/unique_ids.py:76-101 | the keys of a dict display are exactly the keys of its entries |
| CpuInfo.RevisionCodes | rpymostat_common/unique_ids.py:76-101 | a revision code has a model name exactly when it is one of the 24 codes of `rpi_revisions`, compared exactly |
| CpuInfo.RevisionNamesHaveNoSlash | rpymostat_common/unique_ids.py:76-101 | no model name in `rpi_revisions` contains '/' |
| CpuInfo.IsRaspberryPiByLines | rpymostat_common/unique_ids.py:71 | the machine counts as a Raspberry Pi exactly when some line captures 'BCM2708' or 'BCM2709' for the Hardware key and no earlier line matches that key, compared exactly (case-sensitive) |
| CpuInfo.RaspberrypiCpu | rpymostat_common/unique_ids.py:135-172 | the result is None exactly when no line matches the Hardware pattern or its capture is not exactly 'BCM2708' or 'BCM2709'; `RaspberrypiCpuShape` and `RaspberrypiCpuFields` give the identifier otherwise |
| CpuInfo.RaspberrypiCpuShape | rpymostat_common/unique_ids.py:150-172 | for a Raspberry Pi the result is 'RaspberryPi/' + model + '/' + serial. The model is 'unknown_model' without a Revision line, the table's name for a known code, and 'model_' + code otherwise. The serial is 'unknown' without a Serial line, and otherwise the stripped capture |
| CpuInfo.RaspberrypiCpuFields | rpymostat_common/unique_ids.py:135-172 | a Raspberry Pi identifier splits at '/' into exactly the family, the model and the serial, so both can be read back |
| CpuInfo.SerialHasNoSlash | rpymostat_common/unique_ids.py:150-152 | the serial field never contains '/' |
| CpuInfo.ModelHasNoSlash | rpymostat_common/unique_ids.py:165-172 | the model field never contains '/' |
| CpuInfoExamples.FullExample | rpymostat_common/unique_ids.py:135-172 | Hardware BCM2708, Revision 000e and Serial 00000000ae463475 give 'RaspberryPi/B 2.0 512MB (Q4 2012 Sony)/ae463475' |
| CpuInfoExamples.NoRevisionExample | rpymostat_common/unique_ids.py:165-166 | without a Revision line the result is 'RaspberryPi/unknown_model/ae463475' |
| CpuInfoExamples.UnknownRevisionExample | rpymostat_common/unique_ids.py:169-170 | a revision code missing from the table gives 'RaspberryPi/model_fefe/ae463475' |
| CpuInfoExamples.OtherHardwareExample | rpymostat_common/unique_ids.py:158-160 | Hardware GenuineIntel gives None |
| CpuInfoExamples.LowerCaseTagExample | rpymostat_common/unique_ids.py:158-160 | Hardware 'bcm2708' gives None: the pattern ignores case but the membership test does not |
| CpuInfoExamples.LowerCaseKeyExample | rpymostat_common/unique_ids.py:59-60 | a 'hardware' key in lower case still matches, and the machine is recognised |
| CpuInfoExamples.NoHardwareExample | rpymostat_common/unique_ids.py:155-157 | a text without a Hardware line gives None |
| CpuInfoExamples.Revision000e | rpymostat_common/unique_ids.py:87 | '000e' names 'B 2.0 512MB (Q4 2012 Sony)' |
| Loader.LoadClasses | rpymostat_common/loader.py:44-75 | the list returned is exactly `Kept`: the objects of the entry points that loaded and passed the filter, in iteration order |
| Loader.KeptAppend | rpymostat_common/loader.py:61-72 | each entry point is handled independently: the result for two runs of entry points is the two results joined |
| Loader.Kept | rpymostat_common/loader.py:60-69 | the objects kept are never more than the entry points; `KeptIsAdmittedSubsequence` characterises them exactly |
| Loader.KeptIsAdmittedSubsequence | rpymostat_common/loader.py:60-69 | the result is a subsequence of the entry points' objects, taken at strictly increasing positions, and those positions are exactly the admitted entry points |
| Loader.KeptMembership | rpymostat_common/loader.py:65-69 | an object is in the result exactly when some entry point loaded it and passed the filter |
| Loader.FailedLoadSkipped | rpymostat_common/loader.py:62-72 | an entry point whose `load()` raises contributes nothing, and the later entry points are processed as if it were absent |
| Loader.RaisingCheckLikeFailedLoad | rpymostat_common/loader.py:68-72 | an `issubclass` check that raises drops the object just as a failed load does |
| Loader.NoSuperclassKeepsAllLoaded | rpymostat_common/loader.py:66-67 | without a superclass, the objects kept come, in order, from exactly the entry points whose `load()` succeeded, failed loads among them or not |
| Loader.AllLoadedAllKept | rpymostat_common/loader.py:66-67 | when every entry point loads and there is no superclass, the result is all of their objects in order |
| Loader.KeptIgnoresNames | rpymostat_common/loader.py:61-69 | entry points are not de-duplicated by name; only the load outcomes decide the result |
| Loader.FourEntryPointsOneFailing | rpymostat_common/tests/test_loader.py:97-134 | ep1, ep1, ep3 and a failing ep4 give [EP1, EP2, EP3] |
| Loader.SuperclassFilter | rpymostat_common/tests/test_loader.py:152-185 | filtering on MySuperClass turns EP1, EP2, EP3 into [EP1, EP3] |

## Left out

- Reading `/proc/cpuinfo` is file I/O. The text is an input. A file that cannot be opened is the `Host` with no cpuinfo, which makes `raspberrypi_cpu` raise.
- `uuid.getnode()` and `uuid.uuid4()` are platform calls and randomness. Their results are inputs: the node (None when the call raises) and the 128-bit draw.
- `Uuid128` admits every 128-bit value. `uuid.uuid4()` fixes six bits: hex digit 13 is always '4' and hex digit 17 is one of '8' to 'b'. No proof relies on this, and `RandomFallbackId` is stated for every 128-bit value.
- Sharing of the class-level `id_methods` is not modelled. Every `SystemID` instance that has not assigned its own list reads the one class attribute (unique_ids.py:53-56, 117). So rebinding `SystemID.id_methods`, or appending to it in place through any instance, changes the list all of those instances consult. The model gives each `SystemId` its own `idMethods` value, and the constructor's `idMethods == DefaultMethods` holds only while the class-level list is unchanged.
- All `logger` calls in both files are observability only.
- `getattr` dispatch by method name is replaced by the `Strategy` type.
  - A name that is not a method of SystemID (an `AttributeError` from `getattr`, caught and skipped) cannot be written in the model's list. `ResolveSkipsNoValue` shows that a skipped entry behaves as if it were not in the list, which is what such a name amounts to.
- `Raised` stands for any exception a strategy raises. `id_string` catches only `Exception` (unique_ids.py:124), so a `KeyboardInterrupt` or `SystemExit` from a strategy would propagate out of `id_string`; the model does not tell these apart and has no outcome for them. `load_classes` uses a bare `except:` (loader.py:70), which the model's `Fails` and `CheckRaises` match exactly.
- `IdString` takes the fallback value as a parameter, namely what the post-loop `random_fallback()` call returns. A fallback that itself raises is not modelled; the real `random_fallback` does not raise.
- Repeated strategies are not modelled separately. `IdString` assumes one outcome per strategy (the probe), so a strategy listed twice answers the same both times.
- Regular expressions are a per-line matcher:
  - `\s` is ASCII whitespace without a newline, so a key and value split across lines by blank space are not matched;
  - `\w` is ASCII only (not Unicode word characters);
  - case folding is ASCII only.
- `pkg_resources.iter_entry_points` and `EntryPoint.load` are a foreign library. `LoadClasses` takes the sequence of entry points that `iter_entry_points` yields; each has a given load outcome. The entry point group name is therefore not a parameter.
- Python's `issubclass` is a given function that may answer yes, no, or raise.
- The message that logs each class's `__name__` is not modelled. Reading `__name__` is not inside the `try`, so an object without a `__name__` would make `load_classes` raise there. The model has no such attribute.
- rpymostat_common/discovery.py is not part of this model. It only raises `NotImplementedError` and declares an empty class.
- `_get_varnames`, `_parse_docstring` and `list_classes` are not part of this model. Their source is not in the loader file shown.
