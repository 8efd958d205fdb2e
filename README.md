# himipi-sys: build-time logic and request codes, modelled in Dafny

`himipi-sys` is a Rust crate of raw bindings to the HiSilicon MIPI/LVDS/SLVS
combo-device SDK. This model covers the parts of the crate that hold logic:

- **`build.rs`, the identifier renamer** (`MyParseCallbacks::item_name`). The
  binding generator hands every C identifier to this callback. It renames the
  identifier or keeps it. Module `ItemNames` writes the two anchored regular
  expressions as matchers over characters, and tries the alternation
  `hi|hifb` left to right. It then proves that the callback renames exactly as
  an independent description (`RenamedTo`) says.
- **`build.rs`, locating the vendor SDK** (`detect_mpp_path`). The search walks
  up from the manifest directory through its ancestors. It looks in at most
  nine directories, stops at the root, and returns the nearest hit.
  - Module `Paths` models a path as its sequence of components. `join`
    appends components and `parent` drops the last one. Splitting the string
    of a path gives the path back.
  - Module `BuildScript` models the search as a loop. Its result is tied to a
    declarative description of "nearest hit" (`Detected`, `NoneFound`).
- **`build.rs`, filling in the environment** (`setup_envir`) **and the checks
  at the start of `main`**.
  - The process environment is an `Environment` object whose `vars` map the
    script changes in place.
  - The filesystem is the set of paths that exist.
  - The enabled cargo features are a set of `Board`s.
  - The three `#[cfg]` blocks run in source order, so a later enabled block
    overrides an earlier one.
  - A failed `unwrap()` is reported as `Panicked`. An `Err` returned by the
    script is `Returned`.
- **`src/lib.rs`, the request codes.** The sixteen `HI_MIPI_*` `u32`
  constants are read under the Linux ioctl layout of
  `include/uapi/asm-generic/ioctl.h`:
  - bits 0-7 hold the command number;
  - bits 8-15 hold the type;
  - bits 16-29 hold the size;
  - bits 30-31 hold the direction.

  Module `Ioctl` encodes and decodes codes in this layout and proves the two
  round trips. Module `MipiRequests` proves what each constant decodes to.

Module `Wrappers` holds the `Option` type shared by the others.

Where the crate's documentation and its code differ, the model follows the
code:
- There is no per-SDK-version table of request codes. `HI_MIPI_SET_DEV_ATTR`
  is one unconditional literal (1113615617). The alternative value 1114402049,
  for a 620-byte attribute structure, appears nowhere in the code.
- Nothing rejects a build with several board features. Every enabled
  `#[cfg]` block runs, and the last one wins: hi3559av100 over hi3531v100,
  and hi3531v100 over the EV200 family.
- The `hi3519av100` feature passes `main`'s board check, but no block of
  `setup_envir` supplies defaults for it. With `MPP_DIR` unset, the
  `env::var("MPP_DIR").unwrap()` at `build.rs:163` panics
  (`BuildScript.BuildMain`, `BuildScript.NoDefaultsExactly`).

## Model

| member | source | states |
|---|---|---|
| ItemNames.ItemName | build.rs:46-64 | Every new name the callback returns is non-empty and has no lower-case ASCII letter. |
| ItemNames.ItemNameMeaning | build.rs:46-64 | The callback renames `name` to `renamed` if and only if one of three cases holds: `name` is the overridden name and `renamed` its override; `name` is `hi`/`hifb` followed by a non-empty remainder without lower-case letters, and `renamed` is that remainder; or `name` is such a prefix and remainder followed by `__bindgen_ty_` and one digit, and `renamed` is the remainder followed by `_U` and the digit. |
| ItemNames.ItemNameSound | build.rs:55-62 | Every rename made by the two patterns fits the plain form or the anonymous-type form. |
| ItemNames.SpecialOverride | build.rs:48-51 | `hifbDYNAMIC_RANGE_E` becomes `HIFB_DYNAMIC_RANGE_E`, although the plain pattern alone would give `DYNAMIC_RANGE_E`. |
| ItemNames.StripsPrefix | build.rs:55-58 | `hi`+R and `hifb`+R, with R non-empty and free of lower-case letters, become R; for `hifb` the `fb` is stripped too. The exception is the overridden name `hifbDYNAMIC_RANGE_E`. |
| ItemNames.HifbSkipsHi | build.rs:55-59 | A name starting with `hifb` never matches through the `hi` alternative, because `f` is lower case. |
| ItemNames.RenamesAnonymous | build.rs:59-62 | `hi`/`hifb`+R+`__bindgen_ty_`+d, with R non-empty and free of lower-case letters and d one digit, becomes R+`_U`+d. |
| ItemNames.MarkBlocksPlain | build.rs:55-62 | A name that ends in the anonymous-type marker and a digit never matches the plain pattern, because the marker holds lower-case letters. |
| ItemNames.PatternsDisjoint | build.rs:55-62 | No name matches both patterns, so the order in which they are tried changes no result. |
| ItemNames.KeepsUnprefixed | build.rs:55-63 | A name not starting with `hi` is kept (`None`). |
| ItemNames.KeepsLongOrdinal | build.rs:59-63 | A name whose `__bindgen_ty_` ordinal has two digits is kept. |
| ItemNames.KeepsLowerRemainder | build.rs:55-63 | A name with a lower-case letter after its vendor prefix, and outside a trailing `__bindgen_ty_<digit>`, is kept. The letter may be anywhere from index 2 on, except that for a name starting with `hifb` it lies after the `hifb` (as in `hiAbCD`). |
| Paths.Join | build.rs:71 | Joining a relative path keeps the base as a prefix and adds the relative path's length. |
| Paths.Parent | build.rs:76-79 | `parent` is absent exactly for the root; otherwise the path is its parent plus one last component. |
| Paths.Components | build.rs:69 | `Path::new` of a string gives components that are each non-empty and hold no `/`. |
| Paths.Render | build.rs:98-101 | The string `set_var` stores for a found path is absolute: it starts with `/`. With `ComponentsOfRender` it names the path again. |
| Paths.ComponentsOfRender | build.rs:98-100 | The string of a well-formed path parses back to the same path. |
| BuildScript.Tries | build.rs:70-79 | The search looks in at most nine directories, and never in more than the start directory and its ancestors. |
| BuildScript.DetectMppPath | build.rs:67-82 | Without `CARGO_MANIFEST_DIR` the search panics with the not-present message. Otherwise a success is `mpp_dir` below the nearest of the searched directories that holds it, and no nearer directory holds it. A failure means that no searched directory holds it, and carries the not-detected message for `mpp_dir`. |
| BuildScript.DetectedUnique | build.rs:70-75 | The search has exactly one possible answer: the nearest hit. |
| BuildScript.DetectedExists | build.rs:70-75 | The path found exists, lies below the start directory or one of its first eight ancestors, and implies that the search does not fail. |
| BuildScript.DetectedWellFormed | build.rs:71-74 | The path found is well formed, so its string names it again. |
| BuildScript.MessagesNameDir | build.rs:81 | The not-detected message of the search, and the not-exists message of `main` (line 165), quote the directory verbatim. |
| BuildScript.Environment.SetVar | build.rs:98-101 | `set_var` changes the value of one variable and no other. |
| BuildScript.SetDetectedMppDir | build.rs:98-101 | It succeeds exactly when the search finds something. `MPP_DIR` then becomes the string of the nearest hit and nothing else changes. Otherwise it panics with the search's message and the environment is unchanged. |
| BuildScript.MppDirBlock | build.rs:92-101 | One `#[cfg]` block's `MPP_DIR` step (this one, and likewise lines 103-107 and 109-113). If its search succeeds, the run of successful searches grows by this block and `MPP_DIR` holds its hit. If it misses, this block is the first miss of the enabled blocks: it panics with the search's message and the environment is as the earlier blocks left it. |
| BuildScript.MppDirDefaults | build.rs:91-114 | With `MPP_DIR` unset, it succeeds exactly when the search of every enabled block succeeds. A failure panics at the first enabled block whose search misses, with that search's message. The environment is then as the earlier blocks left it: `MPP_DIR` holds the result for the last of them, or is still unset. On success `MPP_DIR` holds the result for the last enabled block, or stays unset when no block is enabled. Nothing else changes. |
| BuildScript.SysIncludeDefaults | build.rs:116-139 | `SYS_INCLUDE` becomes the include directory of the last enabled block, and is left as it was when no block is enabled. Nothing else changes. |
| BuildScript.SetupEnvir | build.rs:84-142 | The unsupported host triple is refused before anything changes. No variable other than `MPP_DIR` and `SYS_INCLUDE` changes. A value already set is never overwritten. Success means `MPP_DIR` was preset or every enabled search succeeds, and a failure names the first miss. The defaults are those of the last enabled block. |
| BuildScript.NearestRoundTrip | build.rs:163-164 | The string `setup_envir` stores for a found path names an existing path. |
| BuildScript.BuildMain | build.rs:145-166 | With no board feature it fails with "The target board does not specified!" before the environment is touched. The target check of `setup_envir` comes next. Only `MPP_DIR` and `SYS_INCLUDE` can change, and a value already set is kept. A success names an existing `MPP_DIR`. A preset `MPP_DIR` is accepted exactly when it exists. With `MPP_DIR` unset: no block enabled panics; a search that misses panics with the message of the first enabled block that misses; otherwise the hit of the last enabled block is stored and returned. Once `setup_envir` succeeded, an unset `SYS_INCLUDE` holds the include directory of the last enabled block, or stays unset when no block is enabled. |
| BuildScript.Enabled | build.rs:92-138 | At most three blocks are compiled in, and each is a block of `setup_envir` that some enabled board selects. |
| BuildScript.EnabledBlocks | build.rs:91-139 | The blocks compiled in, written per `#[cfg]` block (the EV200 block for any EV200-family board, then the hi3531v100 block, then the hi3559av100 block), are exactly the blocks, in source order, whose boards include an enabled one. |
| BuildScript.NoDefaultsExactly | build.rs:91-139 | No block is compiled in exactly when the enabled boards are at most `hi3519av100`. |
| BuildScript.LastEnabled | build.rs:91-139 | The defaults that stay are those of hi3559av100 if it is enabled, else of hi3531v100 if it is enabled, else of the EV200 family. |
| Ioctl.Encode | src/lib.rs:8-53 | A code is produced exactly when every field fits its width: 2, 8, 8 and 14 bits. |
| Ioctl.Decode | src/lib.rs:8-53 | Every decoded field fits its width. |
| Ioctl.DecodeEncode | src/lib.rs:8-53 | Decoding the code of in-range fields gives the fields back. |
| Ioctl.EncodeDecode | src/lib.rs:8-53 | Every 32-bit code is the encoding of its decoded fields. |
| Ioctl.EncodeInjective | src/lib.rs:8-53 | Different in-range requests have different codes. |
| MipiRequests.SetDevAttrFields | src/lib.rs:8 | `HI_MIPI_SET_DEV_ATTR` is 0x42606D01. It decodes to write, type 0x6D, number 1 and size 608, and is `_IOW('m', 1, 608)`. |
| MipiRequests.SetPhyCmvModeFields | src/lib.rs:11 | `HI_MIPI_SET_PHY_CMVMODE` is 0x40086D04. It decodes to write, type 0x6D, number 4 and size 8, and is `_IOW('m', 4, 8)`. |
| MipiRequests.RequestAt | src/lib.rs:8-53 | The value of each constant, by declaration position. |
| MipiRequests.DeclaredFields | src/lib.rs:8-53 | Each constant is the code of the write request with magic `'m'`, and with the number and size its position calls for. It also decodes back to those fields. |
| MipiRequests.SensorAndClockFields | src/lib.rs:14-53 | The constants from `HI_MIPI_RESET_SENSOR` to `HI_MIPI_CLEAR` are consecutive. The one at position i is `_IOW('m', i + 3, 4)`, so numbers 5 to 18. |
| MipiRequests.AllWriteRequestsOfM | src/lib.rs:8-53 | Every constant decodes to direction write and type 0x6D, and re-encoding its fields gives it back. |
| MipiRequests.RequestsDistinct | src/lib.rs:8-53 | The sixteen constants are pairwise distinct, and so are their command numbers. |

## Left out

- The binding generator and everything after `build.rs:166`: writing `wrapper.h` under `OUT_DIR`, the bindgen builder and its allow-lists, and writing `bindings.rs`. These are an external code generator and file output.
- The `cargo:` lines the script prints (`build.rs:157-159`, `build.rs:168`). They are output for the build tool and decide nothing.
- `MyError`, its `Debug`/`Display` impls and the `MyErr!` macro. A failure carries its message string. The text a panicking `unwrap()` adds around that message is not modelled.
- The process environment and the filesystem are parameters: a map of variables and the set of existing paths. A variable whose value is not valid Unicode reads as absent.
- ItemNames.ItemName: `\d` is taken as the ASCII digits and `[^a-z]` as any character other than `a`-`z`. The regex engine's Unicode digit classes are not modelled.
- Paths.Components: a path string is split on `/` only. Relative paths are read as below the root, and `.` and `..` components are not resolved. A user-supplied relative `MPP_DIR` is checked against the paths that exist as if it were absolute.
- The test module of `src/lib.rs` opens the device and issues requests through libc. That is device I/O and is not modelled. The `include!` of the generated bindings is left out as well.
- Ioctl.Encode: a field too wide for its place is reported as an overflow instead of being truncated or spilling into the next field as the C macros would. No constant of the crate has such a field.
- Selection of request codes by SDK version: the code has no such selection, so none is modelled.
