# Key expiration time subpacket codec and libgcrypt helpers, in Dafny

This project models three pieces of code.

**The OpenPGP Key Expiration Time signature subpacket of NeoPG.** This is subpacket type 9 (section 5.2.3.6 of RFC 4880). Its body is one four-octet time field, most significant octet first (sections 3.1 and 3.5 of RFC 4880).
- Decoding runs the PEGTL grammar `must<expiration, eof>`, where `expiration` is `bytes<4>`. The bind action stores the four bytes in `m_expiration`. The control layer raises the error message of the rule that failed: "is invalid" for `expiration` and "is too large" for `eof`.
- Encoding (`write_body`) emits the four bytes.
- The model is pure: a small rule engine (`Match`, `Apply`, `Must`) runs the two-rule grammar, and `CreateOrThrow` returns the packet or the error. Both round trips are proved.

**Pieces of libgcrypt's `global.cpp`:**
- The version parsers `parse_version_number` and `parse_version_string`. These are methods with loops, each proved against a specification function.
- The `size_t` overflow guard of the zeroing allocators.
- The flag state machine of the control dispatcher `_gcry_vcontrol`: `debug_flags`, `any_init_done`, `init_finished` and `no_secure_memory`. It is a class whose fields are those static variables. Its methods are proved against a pure step function.

**The character macros of libgcrypt's `tests/t-common.h`**, as functions on characters and bytes.

Files:
- `machine.dfy`: machine integer types and a division lemma.
- `wrappers.dfy`: `Option`.
- `key_expiration_time.dfy`: the subpacket codec.
- `version.dfy`: the version parsers.
- `alloc.dfy`: the allocation guard.
- `control.dfy`: the dispatcher.
- `test_macros.dfy`: the macros.

Modelling choices:
- A C string is a `seq<char>`, read as NUL at and past its end. A pointer into it is an index.
- A 32-bit flag word is the set of positions of its one-bits (`set<Bit>`). This is the same information: `|=` is union, `&= ~` is difference and `&` is intersection.

## Model

| member | source | states |
|---|---|---|
| KeyExpirationTime.ErrorMessage | neopg/openpgp/signature/subpacket/key_expiration_time_subpacket.cpp:44-50 | each rule has its own message: "invalid" exactly for `expiration`, "too large" for `eof` |
| KeyExpirationTime.Match | neopg/openpgp/signature/subpacket/key_expiration_time_subpacket.cpp:22-23 | `bytes<4>` matches iff four bytes remain and consumes them; `eof` matches iff none remain and consumes nothing |
| KeyExpirationTime.BigEndianOfFour | neopg/openpgp/signature/subpacket/key_expiration_time_subpacket.cpp:30-31 | the value bound from four bytes is b0·2^24 + b1·2^16 + b2·2^8 + b3, and it fits in a `uint32` |
| KeyExpirationTime.Apply | neopg/openpgp/signature/subpacket/key_expiration_time_subpacket.cpp:26-31 | the `expiration` action stores the big-endian value of its four bytes in `m_expiration`; other rules leave the packet untouched |
| KeyExpirationTime.Must | neopg/openpgp/signature/subpacket/key_expiration_time_subpacket.cpp:34-41 | a failure carries the message of a rule that does not match at the reported position, which lies inside the input; an empty rule list yields the packet |
| KeyExpirationTime.CreateOrThrow | neopg/openpgp/signature/subpacket/key_expiration_time_subpacket.cpp:55-63 | decoding succeeds iff the body is exactly 4 bytes, with `m_expiration` their big-endian value; shorter is "invalid" at offset 0, longer is "too large" at offset 4; a failure yields no packet |
| KeyExpirationTime.WriteBody | neopg/openpgp/signature/subpacket/key_expiration_time_subpacket.cpp:65-70 | exactly 4 bytes whose big-endian value is `m_expiration` |
| KeyExpirationTime.WriteBodyDigits | neopg/openpgp/signature/subpacket/key_expiration_time_subpacket.cpp:66-69 | the four shifted bytes, each cut to 8 bits, are the base-256 digits of the value |
| KeyExpirationTime.DecodeWriteBody | neopg/openpgp/signature/subpacket/key_expiration_time_subpacket.cpp:55-70 | decoding the written body gives back every packet |
| KeyExpirationTime.WriteBodyDecode | neopg/openpgp/signature/subpacket/key_expiration_time_subpacket.cpp:55-70 | writing a decoded packet gives back every body that decodes |
| KeyExpirationTime.OneDay | neopg/openpgp/signature/subpacket/key_expiration_time_subpacket.cpp:22-31 | 00 01 51 80 decodes to 86400 and 86400 encodes to 00 01 51 80 |
| Version.DigitRunEnd | legacy/libgcrypt/src/global.cpp:92 | the loop stops at the first non-digit after the start, and every character before it is a digit |
| Version.Wrap32 | legacy/libgcrypt/src/global.cpp:94-95 | `int` arithmetic with wrap-around gives the value congruent to the exact one modulo 2^32 |
| Version.WrapStep | legacy/libgcrypt/src/global.cpp:94-95 | a wrapped `val *= 10; val += d` keeps `val` equal to the wrapped exact value |
| Version.NumberAsWritten | legacy/libgcrypt/src/global.cpp:87-98 | the specification of the as-written parser: a leading zero fails, otherwise the wrapped value of the maximal digit run, failing when that is negative (its properties are stated by `Version.AsWrittenAcceptsWrapped`) |
| Version.ParseVersionNumberAsWritten | legacy/libgcrypt/src/global.cpp:87-98 | the loop as written: leading zero rejected, otherwise the wrapped value of the digit run, rejected only when negative |
| Version.Number | legacy/libgcrypt/src/global.cpp:87-98 | a leading zero fails; on success the number is the decimal value of the consumed digits, which are the maximal digit run, and the rest does not start with a digit; failure means a leading zero or a value above `INT_MAX` |
| Version.DecimalValuePrefix | legacy/libgcrypt/src/global.cpp:92-97 | a prefix of a digit run has no larger value, so an overflow detected mid-run is one of the whole run |
| Version.ParseVersionNumber | legacy/libgcrypt/src/global.cpp:87-98 | the loop with the bound checked before each step computes `Number` |
| Version.NumberOfRendered | legacy/libgcrypt/src/global.cpp:87-98 | a decimal number up to `INT_MAX`, written without leading zeros and not followed by a digit, parses back to itself and stops right after itself |
| Version.RenderValue | legacy/libgcrypt/src/global.cpp:90-96 | the decimal rendering has no leading zero and its digits have the rendered value |
| Version.AsWrittenAcceptsWrapped | legacy/libgcrypt/src/global.cpp:92-97 | as written, every number above `INT_MAX` whose residue modulo 2^32 is below 2^31 is accepted as that residue, where `Number` rejects it |
| Version.AsWrittenAcceptsOverflow | legacy/libgcrypt/src/global.cpp:92-97 | as written, "4294967297" is accepted as 1 |
| Version.VersionOf | legacy/libgcrypt/src/global.cpp:109-120 | on success the three components are non-negative and the patch level starts at a non-digit inside the string |
| Version.VersionOfSucceeds | legacy/libgcrypt/src/global.cpp:109-120 | success implies that all three components parse, that a '.' follows the major and the minor number, and that the result is made of those components and the index after the micro number |
| Version.EmptyComponent | legacy/libgcrypt/src/global.cpp:109-120 | an empty component is read as 0: "1..2" is version 1.0.2 with the patch level at its end |
| Version.ParseVersionString | legacy/libgcrypt/src/global.cpp:109-120 | the method computes `VersionOf` |
| Version.VersionOfComponents | legacy/libgcrypt/src/global.cpp:109-120 | three parsed components, the first two each followed by '.', give the version and the patch level after the micro number |
| Version.VersionOfPieces | legacy/libgcrypt/src/global.cpp:109-120 | a string holding three renderings separated by '.' parses to those numbers |
| Version.VersionOfRendered | legacy/libgcrypt/src/global.cpp:109-120 | parsing `<major>.<minor>.<micro><patchlevel>` gives back its three numbers and the start of the patch level |
| Alloc.GuardRejects | legacy/libgcrypt/src/global.cpp:398-402 | the guard on the wrapped product, as written; `Alloc.GuardDetectsOverflow` states what it decides |
| Alloc.GuardDetectsOverflow | legacy/libgcrypt/src/global.cpp:398-402 | the guard `m && bytes / m != n` on the wrapped product holds iff `n * m` does not fit in `size_t` |
| Alloc.Calloc | legacy/libgcrypt/src/global.cpp:394-424 | NULL iff the product overflows (with `errno` set to `ENOMEM`) or the allocator refuses (with `errno` as the allocator left it); otherwise exactly `n * m` zero bytes |
| Alloc.Xcalloc | legacy/libgcrypt/src/global.cpp:486-514 | a fatal error iff the product overflows or `xmalloc` fails; otherwise exactly `n * m` zero bytes |
| GlobalControl.GlobalInit | legacy/libgcrypt/src/global.cpp:60-64 | after `global_init`, `any_init_done` is set and nothing else has changed |
| GlobalControl.Library.constructor | legacy/libgcrypt/src/global.cpp:47-56 | the static flags start out zero, as does the static local `init_finished` of line 176 |
| GlobalControl.Step | legacy/libgcrypt/src/global.cpp:179-284 | the switch of `_gcry_vcontrol`, case by case: the new flags and the code returned; its properties are the lemmas below |
| GlobalControl.Library.Init | legacy/libgcrypt/src/global.cpp:60-64 | the method performs `GlobalInit` on the fields |
| GlobalControl.Library.Control | legacy/libgcrypt/src/global.cpp:175-287 | every command updates the fields and returns the code as `Step` says |
| GlobalControl.Library.GetDebugFlag | legacy/libgcrypt/src/global.cpp:533 | a bit is in the result exactly when it is set in `debug_flags` and in the mask |
| GlobalControl.GlobalInitIdempotent | legacy/libgcrypt/src/global.cpp:60-64 | `global_init` is idempotent, and it changes nothing once `any_init_done` is set |
| GlobalControl.DebugFlagsSet | legacy/libgcrypt/src/global.cpp:233-235 | afterwards a bit is set iff it was set before or is in the mask; the query on the mask reports all of the mask; the other flags are unchanged |
| GlobalControl.DebugFlagsClear | legacy/libgcrypt/src/global.cpp:237-239 | afterwards a bit is set iff it was set before and is not in the mask; the query on the mask reports nothing; the other flags are unchanged |
| GlobalControl.QueriesReport | legacy/libgcrypt/src/global.cpp:246-252 | the two queries return `GPG_ERR_GENERAL` iff their flag is set, and change nothing |
| GlobalControl.InitializationFinishedOnce | legacy/libgcrypt/src/global.cpp:254-264 | `INITIALIZATION_FINISHED` sets `init_finished` (running `global_init` if it was clear) and returns no error; repeating it changes nothing, and the query then reports it |
| GlobalControl.ResultCodes | legacy/libgcrypt/src/global.cpp:175-287 | `GPG_ERR_INV_OP` comes exactly from an unlisted command, which changes nothing; `GPG_ERR_GENERAL` comes exactly from an unlocked secure pool or a query whose flag is set |
| GlobalControl.InitializationIsPermanent | legacy/libgcrypt/src/global.cpp:175-287 | no command clears `any_init_done` or `init_finished` |
| TestMacros.IsAscii | legacy/libgcrypt/tests/t-common.h:36 | `my_isascii`: bit 7 of the byte is clear (`TestMacros.IsAsciiBelow128` states what that means) |
| TestMacros.IsDigit | legacy/libgcrypt/tests/t-common.h:37 | `digitp`: the character lies in '0'..'9' |
| TestMacros.IsHexDigit | legacy/libgcrypt/tests/t-common.h:38-39 | `hexdigitp`: a decimal digit, or in 'A'..'F' or 'a'..'f' |
| TestMacros.IsAsciiBelow128 | legacy/libgcrypt/tests/t-common.h:36 | `my_isascii` holds iff the byte is below 128 |
| TestMacros.DigitsAreDecimalHex | legacy/libgcrypt/tests/t-common.h:37-39 | `digitp` holds exactly for the hex digits of value below ten |
| TestMacros.HexDigitsAreRendered | legacy/libgcrypt/tests/t-common.h:38-42 | `hexdigitp` holds exactly for the characters that render their own `xtoi_1` value below 16 |
| TestMacros.XtoI1 | legacy/libgcrypt/tests/t-common.h:40-42 | a decimal digit gives `c - '0'`, 'A'..'F' and 'a'..'f' give 10..15; every hex digit gives a value in 0..15 |
| TestMacros.XtoI1OfHexDigit | legacy/libgcrypt/tests/t-common.h:40-42 | `xtoi_1` reads back every rendered hex digit, upper or lower case |
| TestMacros.HexDigitOfXtoI1 | legacy/libgcrypt/tests/t-common.h:40-42 | every hex digit is the rendering of its value in its own case; 'A' and 'a' both give 10 |
| TestMacros.XtoI2 | legacy/libgcrypt/tests/t-common.h:43 | for two hex digits the value is in 0..255, with the first digit as its high nibble and the second as its low nibble |
| TestMacros.XtoI2OfHexByte | legacy/libgcrypt/tests/t-common.h:43 | `xtoi_2` inverts the two-digit hex rendering of every byte |
| TestMacros.HexByteOfXtoI2 | legacy/libgcrypt/tests/t-common.h:43 | rendering the value of two hex digits of one case gives them back |

## Left out

- PEGTL's internals and the `ParserInput` wrapper are not part of this model. `bytes<4>`, `eof` and `must` are modelled by their observable behaviour. An error is its message and its offset inside the subpacket body, not a `parser_error` object.
- The `bind` action helper of NeoPG (`bind<KeyExpirationTimeSubpacket, uint32_t, &m_expiration>`) is not part of this model. Its conversion of the four matched bytes to a `uint32` is taken to be big-endian, as sections 3.1 and 3.5 of RFC 4880 require of scalars. Both round trips depend on that.
- The packet framing, the subpacket type registry and the header declaring `m_expiration` are not part of this model. The packet that `create_or_throw` creates is taken to start with `m_expiration` zero, and it is never returned on failure.
- `write_body` writes to a `std::ostream`. Here it returns the byte sequence.
- `parse_version_number` and `parse_version_string` store their numbers through out-pointers even on some failures, for example `*number` when the value is negative. The model returns nothing on failure.
- Version.VersionOf: is built on the corrected component parser `Version.Number`, not on the as-written one. Where a component overflows and wraps to a non-negative value the two differ. For example, on "4294967297.0.0" the source, with wrap-around, returns version 1.0.0, and `VersionOf` returns None. The same holds for `Version.ParseVersionString`.
- Version.ParseVersionNumberAsWritten: signed `int` overflow is undefined behaviour in C. The as-written model assumes two's-complement wrap-around, which is what the `val < 0` test relies on.
- The allocators themselves (`_gcry_malloc`, `_gcry_malloc_secure`, `_gcry_xmalloc`, the secure/standard memory choice) are calls into code that is not part of this model. Whether they return memory is the `granted` parameter. `errno` is not modelled: the guard sets it to `ENOMEM`, and `do_malloc` sets it to `ENOMEM` only when the allocator left it zero.
- The out-of-core retry loop of the `xmalloc` family and `_gcry_fatal_error` are callbacks and a process abort. `Xcalloc` ends in `FatalError` instead.
- `global_init` also initialises the prime, secure-memory and MPI modules, and it calls `BUG()` if one fails. These are not part of this model and are taken to succeed.
- The secure-memory commands of `_gcry_vcontrol` delegate to the secure-memory module, the memory guard or the logger, so they change no flag modelled here. The vararg arguments are command fields. The pool's not-locked flag after `INIT_SECMEM` comes from the secure-memory module, so it is a field of the command.
- GlobalControl.Library.GetDebugFlag: returns the set of flags present in the mask. The conversion of that `unsigned int` to the `int` that `_gcry_get_debug_flag` returns is not modelled.
- `print_config`, `_gcry_set_progress_handler`, the strdup/realloc/free family, and the `die`/`fail`/`info`/`xgcry_control` helpers of `t-common.h` are I/O, callback registration or allocator calls, so they are left out.
- TestMacros.XtoI1: is defined on every character the way the macro computes it, but says nothing about its value on non-hex characters. The signedness of C `char` for bytes above 127 is not modelled.

## Findings

| source | as written | input that shows it | evidently intended | confidence | as-written member | corrected member |
|---|---|---|---|---|---|---|
| legacy/libgcrypt/src/global.cpp:92-97 | `val` accumulates in an `int` and overflow is detected only by `val < 0` at the end; a value that wraps past 2^32 back into the non-negative range is accepted | "4294967297" (2^32 + 1) wraps to 1 and is accepted as version component 1 | a component above `INT_MAX` fails | not executed | Version.AsWrittenAcceptsOverflow | Version.ParseVersionNumber |

The as-written half is `Version.ParseVersionNumberAsWritten`, which computes `Version.NumberAsWritten`. `Version.AsWrittenAcceptsWrapped` states the general case. The corrected half is `Version.ParseVersionNumber`, which computes `Version.Number`. `Version.NumberOfRendered` and `Version.VersionOfRendered` are proved about the corrected half, and `Version.ParseVersionString` uses it. In C, signed overflow is undefined behaviour anyway, so the final `val < 0` test cannot be relied on at all.
