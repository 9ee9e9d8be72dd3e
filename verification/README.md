# libvirt Rust binding: a Dafny model of its local logic

The binding wraps a C virtualisation library. Most of its methods pass a handle to a
native entry point and turn the native sentinel into a `Result`. This project models
the logic the binding adds on top of those calls, and proves properties of that
logic. It covers three areas.

- **Typed-parameter codec.** `to_params` turns named, kind-tagged optional fields into
  fixed-size native records (an 80-byte name, a kind tag, a value union), and
  `from_params` reads records back into fields. Domains also have hand-written codecs
  for the memory and NUMA tunables.
- **Enum mapping from `impl_enum!`.** Raw C constants map to Rust variants through a
  table of arms plus a catch-all arm. `from_raw`, `to_raw` and a lower-case `Display`
  are generated from it.
- **Handle ownership.** `Domain`, `StorageVol`, `DomainSnapshot` and `Stream` hold
  `ptr: Option<handle>`. `free` clears it, `Drop` frees a handle still held, and
  `as_ptr` panics once the handle is gone. `NodeDevice` uses a nullable raw pointer
  instead.

Every native entry point is an oracle. The model is handed the value the entry point
returned and records the call as `Call(entry, handle, ret)`. A Rust call is modelled
as `Run`: it either returned a new wrapper state and a result, or it panicked.
Statements such as "no native call after release" or "drop never panics" are
therefore statements about the binding alone. The error read from the native library
is an opaque value supplied with the failing call.

Modules, one per file:

- `Base`: C integer widths, `as` casts, `Option`, `Result` and `Outcome`.
- `CStrings`: NUL-terminated strings.
- `TypedParam`: the native record.
- `TypedParams`: the generic codec.
- `EnumUtil`: `impl_enum!`.
- `Handles`: the shared ownership discipline and the sentinel rules.
- `Domains`, `Streams`, `StorageVols`, `Snapshots`, `NodeDevices`: one per wrapper
  file.

The source files come from different revisions, and each is modelled as written.

- `src/domain.rs` builds records in an older layout, where the value is one 64-bit
  word. Here a number stored in that word sits in the `UL` slot and a string pointer
  in the `S` slot. The casts `as u64`, `as c_int` and `as *mut c_char` read those
  slots.
- `DomainSnapshot::get_parent` takes the domain and passes the domain's handle. The
  model does the same.

## Model

| member | source | states |
|---|---|---|
| Base.AsUInt32 | src/nodedev.rs:165 | `as u32` keeps the value modulo 2^32, and is the identity on values that already fit |
| Base.AsInt32 | src/domain.rs:774 | `as i32` keeps the value modulo 2^32, read as two's complement, and is the identity on `i32` values |
| Base.AsUInt64 | src/domain.rs:1767 | `as u64` keeps the value modulo 2^64, so a negative `c_int` is sign-extended |
| CStrings.UntilNul | src/typedparams.rs:73-74 | `CStr::from_ptr` reads the bytes before the first NUL; the result is a prefix of the buffer and holds no NUL |
| CStrings.NewCString | src/lib.rs:120-124 | `CString::new(..).unwrap()` panics exactly when the bytes hold an interior NUL, and otherwise copies them unchanged |
| CStrings.UntilNulOfCChars | src/lib.rs:88-101 | reading back a NUL-free string followed by zero padding gives the string |
| TypedParam.SlotTag | src/typedparam.rs:36-44 | every union slot has its own kind tag in 1..7 |
| TypedParam.SlotTagIdentifiesSlot | src/typedparam.rs:61-68 | the seven tags are pairwise distinct: two slots share a tag iff they are the same slot |
| TypedParam.Default | src/typedparam.rs:52-56 | the default record is all zeros: an empty name, tag 0 (no valid kind), and 0 in every slot |
| TypedParams.ExpectedTag | src/typedparams.rs:117-157 | each field kind writes and expects a valid kind tag: Int32 INT, UInt32 UINT, Int64 LLONG, UInt64 ULLONG, Float64 DOUBLE, Bool BOOLEAN, String STRING |
| TypedParams.Cleared | src/typedparams.rs:206-214 | a cleared field keeps its kind and holds no value |
| TypedParams.ReadSlot | src/typedparams.rs:78-105 | decoding sets the field to a value of its own kind; a boolean is true iff its byte is non-zero |
| TypedParams.ToArr | src/typedparams.rs:165-171 | the name goes into an 80-byte array: the first min(len, 80) bytes are copied and the rest is zero |
| TypedParams.NameRoundTrip | src/typedparams.rs:165-171 | a NUL-free name shorter than 80 bytes is read back unchanged from the array |
| TypedParams.LongNamesTruncated | src/typedparams.rs:167-169 | names of 80 bytes or more are cut to 80 bytes, so two names that share their first 80 bytes cannot be told apart |
| TypedParams.Encode | src/typedparams.rs:117-157 | a field emits a record iff it is set; the record carries the encoded name and the kind's tag, and its slot reads back as the field's value; a boolean is stored as 0 or 1; a string holding a NUL panics |
| TypedParams.ToParams | src/typedparams.rs:113-163 | one record per set field, in field order, each carrying the field's encoded name, tagged by the field's kind, reading back as the field's value, with a boolean stored as 0 or 1; it panics iff some set string holds a NUL |
| TypedParams.FirstMatch | src/typedparams.rs:75-76 | a record goes to the first field whose name equals the record's name, if any |
| TypedParams.Store | src/typedparams.rs:60-69 | `valid_type!` panics iff the record's tag differs from the tag the field's kind expects |
| TypedParams.ApplyRecord | src/typedparams.rs:72-110 | one record updates at most one field, the first one with its name, and leaves every other field and every field's name and kind unchanged; it panics iff the matched field's kind disagrees with the tag |
| TypedParams.FromParams | src/typedparams.rs:71-111 | it panics iff some record's tag disagrees with its target field; otherwise each field holds the value of the last record naming it, and a field no record names is unchanged |
| TypedParams.FindField | src/typedparams.rs:75-108 | the inner loop stops at the first field carrying the name |
| TypedParams.DecodeInPlace | src/typedparams.rs:71-111 | the two nested loops, with the `break`, compute exactly `FromParams` |
| TypedParams.RoundTrip | src/typedparams.rs:189-218 | decoding `to_params(out)` into cleared fields of the same names and kinds gives back `out`, set or partly set; this needs distinct NUL-free names shorter than 80 bytes and NUL-free strings |
| TypedParams.DemoNamesDistinct | src/typedparams.rs:189-201 | the seven test names are pairwise distinct |
| TypedParams.DemoRoundTrippable | src/typedparams.rs:189-201 | the test's fields meet the round trip's condition whatever values they hold |
| TypedParams.DemoRoundTrips | src/typedparams.rs:220-248 | the full and partial round-trip tests hold for every choice of values, not only the values the tests pick |
| EnumUtil.FromRaw | src/enumutil.rs:41-57 | an unlisted constant gives the catch-all variant; a listed one gives the variant of the first arm carrying it |
| EnumUtil.ToRaw | src/enumutil.rs:59-75 | a listed variant gives the constant of the first arm naming it, as the generated `match` picks the first matching arm; the catch-all of the `_ => V => RAW` form gives RAW |
| EnumUtil.Display | src/enumutil.rs:23-39 | the variant's name, character by character: each upper-case ASCII letter becomes its lower-case letter and every other character is kept, so the length is unchanged |
| EnumUtil.FromRawListed | src/enumutil.rs:48-49 | with distinct constants, each listed constant maps to its listed variant |
| EnumUtil.ToRawFallback | src/enumutil.rs:60-62 | in the `_ => V => RAW` form, `to_raw(V) == RAW` |
| EnumUtil.RoundTripListed | src/enumutil.rs:41-75 | every listed variant survives `to_raw` then `from_raw` |
| EnumUtil.RawRoundTripListed | src/enumutil.rs:59-75 | every listed constant survives `from_raw` then `to_raw` when the constants and the variants are distinct |
| EnumUtil.InstancesCover | src/enumutil.rs:105-125 | both test instances cover every variant |
| EnumUtil.WithoutLastBehaves | src/enumutil.rs:127-139 | FOO, BAR and BAZ map to their variants and 10 falls through to `Foo` |
| EnumUtil.WithoutLastRoundTrips | src/enumutil.rs:141-153 | every variant of the plain form round-trips |
| EnumUtil.WithoutLastDisplays | src/enumutil.rs:151 | the variants are displayed as "foo", "bar" and "baz" |
| EnumUtil.WithLastBehaves | src/enumutil.rs:155-179 | 10 maps to `Last` and `to_raw(Last)` is FOO, so `Last` comes back from the round trip as `Foo` |
| EnumUtil.WithLastDisplays | src/enumutil.rs:180 | the catch-all is displayed as "last" |
| Handles.AsPtr | src/domain.rs:675-677 | `as_ptr` panics iff the handle has been released, and otherwise returns the held handle |
| Handles.New | src/domain.rs:671-673 | a new wrapper holds the handle, and `as_ptr` returns it |
| Handles.Invoke | src/domain.rs:941-944 | a method passing `as_ptr` to the native layer makes no call on a released wrapper, and exactly one call on its handle otherwise |
| Handles.Free | src/domain.rs:960-968 | on success the handle is released and `Ok` returned; on -1 the error is returned and the wrapper is unchanged |
| Handles.Drop | src/domain.rs:658-668 | a released wrapper makes no call; a held handle is freed with one call, the drop panics iff that free fails, and a drop that completes leaves the handle released |
| Handles.BoolStatus | src/domain.rs:941-949 | -1 is an error, 1 is true, anything else false |
| Handles.CountStatus | src/domain_snapshot.rs:217-225 | -1 is an error, anything else is the count `as u32` |
| Handles.PtrStatus | src/storage_vol.rs:250-258 | a null pointer is an error, anything else becomes a wrapper holding it |
| Handles.StatusesFaithful | src/domain_snapshot.rs:228-236 | a count in 0..2^31 and a non-null pointer come back unchanged |
| Handles.LifeDiscipline | src/domain.rs:658-677 | over any sequence of uses and frees followed by the drop, every call is on the wrapper's own handle, at most one successful release happens and it is the last native call, and a life without a panic ends released |
| Domains.GetId | src/domain.rs:771-779 | `None` iff the native result is all ones (-1 after `as i32`), otherwise the id |
| Domains.IsActive | src/domain.rs:941-949 | -1 is an error, 1 is true, anything else false |
| Domains.GetMaxMemory | src/domain.rs:1010-1018 | 0 is an error, anything else is the size |
| Domains.BlockInfoFromPtrAsWritten | src/domain.rs:532-540 | the capacity is copied into all three fields |
| Domains.BlockInfoLosesFields | src/domain.rs:535-537 | two native block infos that differ in allocation and physical size read back alike |
| Domains.BlockInfoFromPtr | src/domain.rs:525-541 | the corrected copy takes each field from its native namesake |
| Domains.BlockInfoFromPtrInjective | src/domain.rs:525-541 | the corrected copy loses nothing: equal results come only from equal native infos |
| Domains.NamedRecord | src/domain.rs:1604-1607 | a name written as a literal with its own NUL reads back as the name |
| Domains.MemoryNamesDistinct | src/domain.rs:565-568 | the four memory tunable names are distinct |
| Domains.MemoryParametersNew | src/domain.rs:552-559 | `new()` sets no field |
| Domains.MemorySetFields | src/domain.rs:1602-1630 | the set fields, each exactly once, in the order hard_limit, soft_limit, min_guarantee, swap_hard_limit |
| Domains.MemoryRecords | src/domain.rs:1602-1630 | one ULLONG record per set field, in that order, named by the field and holding its value |
| Domains.MemoryLookup | src/domain.rs:563-568 | the name `match` finds the one field with that name, or none for any other name |
| Domains.MemoryApply | src/domain.rs:562-569 | a record sets exactly the field it names to its value `as u64`; any other name panics |
| Domains.MemoryFromVecSpec | src/domain.rs:560-574 | `from_vec` panics iff some record names no field; otherwise each field holds the value of the last record naming it, or nothing |
| Domains.MemoryRoundTrip | src/domain.rs:1602-1630 | `from_vec` of the setter's records gives back the parameters |
| Domains.SetMemoryParameters | src/domain.rs:1589-1641 | a released domain or an empty parameter set panics before any native call (`cparams[0]`); otherwise one call, -1 is the native error and any other status is returned `as u32` (so a non-negative count unchanged) |
| Domains.GetMemoryParameters | src/domain.rs:1566-1587 | two native calls; the second fills a fixed buffer of three records, which `from_vec` decodes; -1 from either call is an error |
| Domains.GetMemoryParametersShortPanics | src/domain.rs:1576-1585 | if the native library fills fewer than three records, the getter panics on the untouched default record |
| Domains.NumaParametersNew | src/domain.rs:584-589 | `new()` sets neither field |
| Domains.NumaRecords | src/domain.rs:1755-1769 | numa_nodeset (STRING) comes before numa_mode (INT, widened `as u64`), each only when set; a node set holding a NUL panics |
| Domains.NumaApply | src/domain.rs:592-601 | numa_nodeset reads the string, numa_mode reads the value `as c_int`, and any other name panics |
| Domains.NumaFromVecSpec | src/domain.rs:590-604 | `from_vec` panics iff some record names neither field; otherwise each field holds the value of the last record naming it |
| Domains.WidenNarrow | src/domain.rs:1763-1768 | widening a mode `as u64` and narrowing it `as c_int` gives the mode back |
| Domains.NumaRoundTrip | src/domain.rs:1745-1780 | `from_vec` of the setter's records gives back the parameters |
| Domains.SetNumaParameters | src/domain.rs:1745-1780 | a NUL in the node set, a released domain or an empty parameter set panics before any native call; otherwise one call, -1 is the native error and any other status is returned `as u32` (so a non-negative count unchanged) |
| Domains.GetNumaParameters | src/domain.rs:1721-1743 | the reported count sizes the buffer; a count of zero or less panics after the first call; otherwise `from_vec` decodes the buffer |
| Streams.FromPtr | src/stream.rs:124-129 | the stream holds the handle and no callback |
| Streams.StreamNew | src/stream.rs:116-122 | a null result is an error, anything else a new stream |
| Streams.Free | src/stream.rs:135-143 | a released stream panics before any native call; otherwise one `virStreamFree` on the handle; on success the handle is released; on -1 the native error is returned and the stream is unchanged |
| Streams.EventRemoveCallback | src/stream.rs:215-222 | one call on the handle; -1 is an error; the stored callback is kept |
| Streams.Drop | src/stream.rs:93-113 | the only native call is one `virStreamFree` of a held handle, and a released stream makes none; with no callback stored, the drop panics iff that free fails; with a callback stored, it always panics; a completed drop leaves the handle released |
| Streams.DropWithCallbackPanics | src/stream.rs:94-112 | with a callback stored, the drop always panics and never reaches the native removal |
| Streams.DropCorrected | src/stream.rs:93-113 | removing the callback before freeing: the drop panics only when a native call fails, and a drop that completes leaves the handle released |
| Streams.DropOrderMatters | src/stream.rs:94-112 | with a callback stored and both native calls succeeding, the drop as written panics and the corrected one completes |
| Streams.Consume | src/stream.rs:145-161 | exactly two native calls on a held handle: the operation, then the free from dropping the consumed stream; a released stream panics with no call; -1 is an error; a stored callback makes the drop panic |
| Streams.Finish | src/stream.rs:145-152 | exactly `virStreamFinish`, then `virStreamFree`, on the same handle; the result is the native error iff finish returned -1; without a callback it panics iff the free fails, with one it always panics |
| Streams.Abort | src/stream.rs:154-161 | exactly `virStreamAbort`, then `virStreamFree`, on the same handle; the result is the native error iff abort returned -1; without a callback it panics iff the free fails, with one it always panics |
| Streams.ByteCount | src/stream.rs:171 | `usize::try_from`: a negative count is an error, any other the count |
| Streams.Send | src/stream.rs:163-172 | a released stream panics with no native call; a negative native count is an error, a non-negative one is returned |
| Streams.Recv | src/stream.rs:174-183 | a released stream panics with no native call; a negative native count is an error, a non-negative one is returned |
| Streams.EventAddCallback | src/stream.rs:185-205 | a released stream panics with no native call; the callback is stored iff registration succeeded; the handle is unchanged |
| Streams.EventUpdateCallback | src/stream.rs:207-213 | a released stream panics with no native call; otherwise one call on the handle; -1 is an error |
| Streams.CallbackSticks | src/stream.rs:185-222 | after a successful registration, even an explicit removal keeps the callback stored, so the drop panics |
| StorageVols.New | src/storage_vol.rs:194-196 | the new volume holds the handle |
| StorageVols.Free | src/storage_vol.rs:349-357 | a released volume panics with no native call; on success `as_ptr` panics afterwards; on -1 the native error is returned and the volume is unchanged |
| StorageVols.Drop | src/storage_vol.rs:180-191 | only a held handle is freed, with one call, and the drop panics iff that free fails; a completed drop leaves the handle released |
| StorageVols.Construct | src/storage_vol.rs:212-228 | a NUL in the string panics before the call; otherwise a null result is an error, and anything else a volume holding the pointer |
| StorageVols.CreateXml | src/storage_vol.rs:212-228 | `virStorageVolCreateXML` on the pool; null is an error |
| StorageVols.CreateXmlFrom | src/storage_vol.rs:230-248 | a NUL in the XML or a released source volume panics before the call; null is an error |
| StorageVols.LookupByName | src/storage_vol.rs:250-258 | `virStorageVolLookupByName` on the pool; null is an error |
| StorageVols.LookupByKey | src/storage_vol.rs:260-268 | `virStorageVolLookupByKey` on the connection; null is an error |
| StorageVols.LookupByPath | src/storage_vol.rs:270-278 | `virStorageVolLookupByPath` on the connection; null is an error |
| StorageVols.InfoFromPtr | src/storage_vol.rs:160-170 | the sizes are copied unchanged and the type is converted `as u32` |
| StorageVols.InfoFromPtrFaithful | src/storage_vol.rs:161-169 | a non-negative type is copied unchanged, and every native info can be recovered from the copy |
| Snapshots.New | src/domain_snapshot.rs:105-111 | the new snapshot holds the handle and `as_ptr` returns it |
| Snapshots.Free | src/domain_snapshot.rs:283-291 | a released snapshot panics with no native call; on success `as_ptr` panics afterwards; on -1 the native error is returned and the snapshot is unchanged |
| Snapshots.Drop | src/domain_snapshot.rs:91-102 | only a held handle is freed, with one call, and the drop panics iff that free fails; a completed drop leaves the handle released |
| Snapshots.Construct | src/domain_snapshot.rs:144-156 | a released domain or a NUL in the string panics before the call; null is an error; otherwise a snapshot holding the pointer |
| Snapshots.LookupByName | src/domain_snapshot.rs:144-156 | `virDomainSnapshotLookupByName` on the domain's handle; null is an error |
| Snapshots.CreateXml | src/domain_snapshot.rs:169-181 | `virDomainSnapshotCreateXML` on the domain's handle; null is an error |
| Snapshots.Current | src/domain_snapshot.rs:184-192 | `virDomainSnapshotCurrent` on the domain's handle; null is an error |
| Snapshots.GetParent | src/domain_snapshot.rs:195-203 | `virDomainSnapshotGetParent` on the domain's handle, as written; null is an error |
| Snapshots.Count | src/domain_snapshot.rs:217-236 | -1 is an error; a non-negative count is returned unchanged |
| Snapshots.Num | src/domain_snapshot.rs:217-225 | the count of the domain's snapshots; -1 is an error |
| Snapshots.NumChildren | src/domain_snapshot.rs:228-236 | the count of the snapshot's children; -1 is an error |
| Snapshots.Ask | src/domain_snapshot.rs:239-259 | -1 is an error, 1 is true, anything else false |
| Snapshots.IsCurrent | src/domain_snapshot.rs:239-247 | -1 is an error, 1 is true, anything else false |
| Snapshots.HasMetadata | src/domain_snapshot.rs:251-259 | -1 is an error, 1 is true, anything else false |
| Snapshots.ListAllChildren | src/domain_snapshot.rs:262-281 | -1 is an error and creates no wrapper; otherwise exactly `size` wrappers (none for a negative size), holding the native array's handles in array order |
| NodeDevices.Construct | src/nodedev.rs:83-104 | a NUL in the string panics before the call; otherwise a null result is an error, and anything else a device holding the non-null pointer |
| NodeDevices.LookupByName | src/nodedev.rs:83-92 | `virNodeDeviceLookupByName` on the connection; null is an error |
| NodeDevices.CreateXml | src/nodedev.rs:94-104 | `virNodeDeviceCreateXML` on the connection; null is an error |
| NodeDevices.Free | src/nodedev.rs:146-154 | the pointer is passed even when null; on success it is nulled, on -1 the error is returned and the device is unchanged; it never panics |
| NodeDevices.Drop | src/nodedev.rs:68-75 | only a non-null pointer is freed; the result is discarded, so the drop never panics and a failed free leaves the pointer in place |
| NodeDevices.NumOfDevices | src/nodedev.rs:156-167 | a NUL in `cap` panics before the call; -1 is an error; a non-negative count is returned unchanged |
| NodeDevices.ReleasedReachesNative | src/nodedev.rs:146-167 | after a successful free, a later query and a second free both reach the native layer with the null pointer, while the final drop makes no call |

## Left out

- Native entry points and the daemon state they change are oracles. The model does
  not say what the daemon does.
- The record arguments and flags passed to a native call are not kept in `Call`. Only
  the entry point, the handle and the returned value are recorded.
- `Error::new` reads the native library's last error through a foreign call. The model
  uses an opaque error value supplied with the failing call.
- `str::from_utf8(..).unwrap()` on record names and `to_string_lossy` on returned
  strings are not modelled. Names and strings are byte sequences, so a record name
  that is not UTF-8 does not panic in the model.
- Float64 payloads are opaque 64-bit patterns. Floating-point equality such as NaN is
  not modelled.
- A record name with no NUL in its 80 bytes is read past the array by the source. The
  model stops at the end of the array.
- Reading a union slot other than the one last written reinterprets memory in C. The
  model reads such a slot as zero or as the empty string.
- Pointer lifetimes, `libc::free` of returned strings and the leaked node-set string
  of `set_numa_parameters` are not modelled.
- In `get_memory_parameters`, the native library may write more records than the
  three-record buffer holds. That overflow is outside the model: it decodes the buffer
  as written.
- Stream event trampolines, the callback closure itself and the event loop are left
  out. The model keeps only whether a callback is stored.
- The wrappers without release tracking are not part of this model. These are
  `Connect`, `Network`, `StoragePool`, `Interface`, `NWFilter` and `Secret`. The same
  goes for `src/event.rs`, `src/host.rs`, `src/common.rs`, `src/util.rs` and the
  build tooling.
- `Drop` of a wrapper that is dropped while unwinding from a panic is not modelled.
  After a panic the model's run ends.
- EnumUtil.Display: Rust's `to_lowercase` is Unicode-aware; identifiers here are
  ASCII, so the model lowers ASCII letters only.

## Findings

| source | as written | input that shows it | evidently intended | confidence | as-written member | corrected member |
|---|---|---|---|---|---|---|
| src/domain.rs:535-537 | `BlockInfo::from_ptr` copies `capacity` into `allocation` and `physical` as well | native info (capacity 1, allocation 2, physical 3) reads back as (1, 1, 1), the same as (1, 5, 7) | each field copied from its native namesake | high, not executed | Domains.BlockInfoLosesFields | Domains.BlockInfoFromPtrInjective |
| src/stream.rs:94-112 | `Drop` frees the handle, then removes a stored callback through `as_ptr` on the now-empty handle | a stream with a callback stored, every native call succeeding: the drop panics | remove the callback while the handle is held, then free it | high, not executed | Streams.DropWithCallbackPanics | Streams.DropOrderMatters |
