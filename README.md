# gss_import_name: a verified model of the GSS-API name importer

This project models Heimdal's mechanism-glue name importer,
`lib/gssapi/mech/gss_import_name.c`. `gss_import_name` turns a caller's buffer
and name type into an internal name. It does this in one of two ways:

- **Exported names.** If the type is `GSS_C_NT_EXPORT_NAME` or
  `GSS_C_NT_COMPOSITE_EXPORT`, `_gss_import_export_name` parses the token
  defined in section 3.2 of RFC 2743 (or its composite variant from RFC 6680).
  It finds the mechanism whose OID the token carries and passes that mechanism
  the whole token. The result is a name holding that one mechanism name.
- **Generic names.** For any other type, the importer copies the value and the
  type into a fresh name. It then walks the registered mechanisms in order and
  asks every eligible one to import the value. Each success is appended to the
  name's list of mechanism names. The call fails with `GSS_S_NAME_NOT_MN` only
  if no mechanism succeeds.

Modules:

- `Glue` (`types.dfy`) holds the vocabulary:
  - major status codes;
  - OIDs;
  - mechanism descriptors (`Mech`);
  - mechanism names (`MechName`);
  - `Env`, the outcomes of everything the importer calls but does not own.
    These are: a mechanism's `gm_import_name`, `gss_test_oid_set_member`, the
    list-node `malloc`, `_gss_create_name`, `_gss_intern_oid` and
    `_gss_copy_buffer`.
- `BigEndian` (`bigendian.dfy`) holds the 16-bit and 32-bit big-endian fields
  and the OM_uint32 accumulator of the long-form length loop.
- `ExportToken` (`export_token.dfy`) holds the token grammar `ParseToken`. It
  also holds the cursor method `ParseExportName`, which advances `p` and counts
  down `len` and `t` as the C code does, and is proved equal to the grammar;
  its long-form length loop is the method `ReadLongForm`.
  The encoders and the round-trip lemmas are here too.
- `ImportName` (`import_name.dfy`) holds:
  - the `GenericName` class (gn_type, gn_value, gn_mn);
  - `Walk`, the specification of the mechanism loop;
  - the effect functions of both paths, which give the status, the returned
    mechanism names and the `gm_release_name` calls;
  - the methods `ImportExportName` and `GssImportName`, proved against those
    functions;
  - the lemmas about the loop and the two paths.

How the model departs from the C code:

- **Added bounds guards.** The C code reads `p[0]` at lines 101 and 106 without
  checking `len`. The long-form loop at lines 112-117 reads one octet per digit
  with no check. On the composite path, the OID slice taken at line 127 is
  never checked against `len`. In each of these places the model checks that
  enough octets remain and rejects with `GSS_S_BAD_NAME` when they do not. The
  added guards are marked in `ParseExportName` and `ReadLongForm`.
- **Long-form OID lengths are modelled as written.** Line 107 takes the whole
  length octet as the digit count, high bit included, so the count is 128 to
  255. Section 8.1.3.5 of ITU-T X.690 uses only the low seven bits. The model
  follows line 107. Each digit shifts into `mech_oid.length`, which is an
  `OM_uint32` in the C bindings of RFC 2744, so the accumulator wraps modulo
  2^32 (`BeWrap32`). `LongFormMisread` shows the consequence: the X.690
  encoding of a 128-octet OID never parses back to that OID. No lemma claims
  that DER long-form lengths decode correctly.
- **The budget `t` is an unbounded integer.** In C, `t` is a `size_t` and can
  wrap below zero. For a 64-bit `size_t`, a wrapped value is at least
  2^64 - 2^16 - 257, which no `OM_uint32` length can equal, so the check at
  line 124 always fails. A negative unbounded `t` fails the same check, so for
  a 64-bit `size_t` the model rejects exactly the same tokens. The 32-bit case
  is under "Left out".

## Model

| member | source | states |
|---|---|---|
| `BigEndian.Be16Canonical` | lib/gssapi/mech/gss_import_name.c:93 | The two octets of the mechanism-field length are exactly the big-endian encoding of the value read from them. |
| `BigEndian.Be32Canonical` | lib/gssapi/mech/gss_import_name.c:135 | The four NAME_LEN octets are exactly the big-endian encoding of the value read from them. |
| `BigEndian.BeWrap32IsValueMod` | lib/gssapi/mech/gss_import_name.c:111-117 | The long-form accumulator `(length << 8) OR p[0]` on an OM_uint32 holds the big-endian value of the digits modulo 2^32, so only the last four digits matter. |
| `ExportToken.ReadOidLength` | lib/gssapi/mech/gss_import_name.c:106-123 | The length field fits in the buffer and takes at least one octet. A short-form octet is the length itself and takes one octet. A long-form first octet is taken whole as the digit count (128 to 255, as at line 107), and the length is the big-endian value of those digits modulo 2^32. |
| `ExportToken.ReadLongForm` | lib/gssapi/mech/gss_import_name.c:107-117 | The long-form length loop shifts each length octet into an OM_uint32 and yields exactly the value the grammar's long-form length reading gives, and rejects exactly when the token ends before the announced number of length octets. |
| `ExportToken.ParseExportName` | lib/gssapi/mech/gss_import_name.c:31-141 | The cursor walk over the token (TOK_ID, T, the OID tag, the short- or long-form length, the budget check, then NAME_LEN for plain tokens only) returns exactly what the token grammar `ParseToken` gives, with bounds guards where the C code reads unchecked. |
| `ExportToken.HeaderParse` | lib/gssapi/mech/gss_import_name.c:53-141 | After a short-form header, a composite token is accepted with any tail. A plain token is accepted exactly when at least four octets follow and their NAME_LEN equals the count of octets after them. |
| `ExportToken.RoundTrip` | lib/gssapi/mech/gss_import_name.c:91-141 | For an OID under 128 octets, `04 01, be16(2 + len(oid)), 06, len(oid), oid, be32(len(name)), name` parses back to a non-composite token with the same OID and name. |
| `ExportToken.CompositeRoundTrip` | lib/gssapi/mech/gss_import_name.c:69-129 | The composite header `04 02 …` followed by any suffix parses back to a composite token with the same OID and that suffix. |
| `ExportToken.NameLenAsymmetry` | lib/gssapi/mech/gss_import_name.c:129-141 | After the same header, a NAME_LEN that does not count the octets after it gives BAD_NAME for a plain token. The composite token is accepted, and the wrong NAME_LEN becomes part of its suffix. |
| `ExportToken.CanonicalPlain` | lib/gssapi/mech/gss_import_name.c:91-141 | Any plain token accepted with a short-form length is exactly the encoding of the OID and name it was parsed into, so there is no slack anywhere. |
| `ExportToken.PlainLayout` | lib/gssapi/mech/gss_import_name.c:129-141 | Any accepted plain token ends in the OID, then a NAME_LEN equal to the number of octets after it, then those octets. |
| `ExportToken.ParseOutcomes` | lib/gssapi/mech/gss_import_name.c:50-65 | Every rejection is BAD_NAME. An accepted token starts with 04, has TOK_ID 04 01 or 04 02, carries tag 06, and is composite exactly when TOK_ID is 04 02. |
| `ExportToken.TokIdRejected` | lib/gssapi/mech/gss_import_name.c:53-65 | A buffer shorter than 2 octets, or one whose first two octets are neither 04 01 nor 04 02, is rejected with BAD_NAME. |
| `ExportToken.MechFieldRejected` | lib/gssapi/mech/gss_import_name.c:91-125 | After a valid TOK_ID, the token is rejected with BAD_NAME in three cases: T is incomplete, the tag is missing or not 06, or the OID length differs from T less the tag and length octets. |
| `ExportToken.ShortFormBudget` | lib/gssapi/mech/gss_import_name.c:118-125 | When the length octet L is in short form, an accepted token has T = L + 2 and an OID of exactly L octets. |
| `ExportToken.CompositeSuffixFree` | lib/gssapi/mech/gss_import_name.c:69-85 | Appending octets to an accepted composite token keeps it accepted with the same OID; the octets only extend its suffix. |
| `ExportToken.LongFormMisread` | lib/gssapi/mech/gss_import_name.c:106-117 | The X.690 token for a 128-octet OID (length octets 81 80) is never read back as that OID, because 0x81 is taken as 129 digits. |
| `ExportToken.KerberosExample` | lib/gssapi/mech/gss_import_name.c:31-141 | `04 01 00 0B 06 09 2A 86 48 86 F7 12 01 02 02 00 00 00 03 66 6F 6F` parses as non-composite, with mechanism 1.2.840.113554.1.2.2 and name "foo". |
| `ImportName.GenericName.Empty` | lib/gssapi/mech/gss_import_name.c:235 | A fresh name has no type, no value and no mechanism names. |
| `ImportName.GenericName.FromMechName` | lib/gssapi/mech/gss_import_name.c:160 | The exported-name wrapper holds exactly the one mechanism name. |
| `ImportName.GenericName.Append` | lib/gssapi/mech/gss_import_name.c:302 | The mechanism name is added at the tail of gn_mn, and type and value are unchanged. |
| `ImportName.GenericName.Release` | lib/gssapi/mech/gss_import_name.c:319-321 | Releasing makes one `gm_release_name` call per mechanism name, on that name's own mechanism, in list order, and leaves the name empty. |
| `ImportName.Lookup` | lib/gssapi/mech/gss_import_name.c:143 | The mechanism found has the token's OID and no earlier one has it. Nothing is found only when no registered mechanism has that OID. |
| `ImportName.WalkSound` | lib/gssapi/mech/gss_import_name.c:262-303 | Every mechanism name the loop appends comes from an eligible mechanism (not GM_USE_MG_NAME; type test passed) whose node was allocated and whose import returned that handle. The names are in registration order. |
| `ImportName.WalkOutOfMemory` | lib/gssapi/mech/gss_import_name.c:276-281 | The loop aborts exactly when the node allocation fails for some eligible mechanism. |
| `ImportName.WalkStaysStopped` | lib/gssapi/mech/gss_import_name.c:276-281 | After a failed node allocation no later mechanism is asked, and the partial list is what remains. |
| `ImportName.WalkComplete` | lib/gssapi/mech/gss_import_name.c:283-302 | If the loop runs to the end, every eligible mechanism whose import succeeds has its mechanism name in the list. |
| `ImportName.RejectionIsolated` | lib/gssapi/mech/gss_import_name.c:287-298 | If one mechanism's import is turned into a failure, the loop's result changes only by losing that mechanism's name. The other mechanisms are asked and appended as before. |
| `ImportName.AllButOneImport` | lib/gssapi/mech/gss_import_name.c:262-303 | With every mechanism eligible and allocated, and only mechanism f rejecting, the list holds the N-1 others in registration order, with f skipped. |
| `ImportName.ArgumentChecks` | lib/gssapi/mech/gss_import_name.c:211-214 | A missing input buffer gives CALL_INACCESSIBLE_READ, and a missing output slot gives CALL_INACCESSIBLE_WRITE, before anything else happens. |
| `ImportName.SuccessHoldsMechNames` | lib/gssapi/mech/gss_import_name.c:305-322 | COMPLETE hands back a name holding at least one mechanism name, with nothing released. Any other status hands back no name. |
| `ImportName.GenericOutcome` | lib/gssapi/mech/gss_import_name.c:262-317 | Once the name is set up and no allocation fails, NAME_NOT_MN is returned exactly when every eligible mechanism rejects. Otherwise the result is COMPLETE with exactly the produced mechanism names, in order. |
| `ImportName.GenericFailureReleases` | lib/gssapi/mech/gss_import_name.c:276-322 | A failed generic import hands back nothing. What it releases are mechanism names the loop built, each from its own mechanism, in registration order. Releases happen only after a failed node allocation, with status GSS_S_FAILURE. |
| `ImportName.GenericOutOfMemoryReleasesAll` | lib/gssapi/mech/gss_import_name.c:276-321 | When mechanism k is the first eligible one whose node allocation fails, the call returns GSS_S_FAILURE, hands back nothing, and releases exactly the mechanism names produced by the mechanisms before k, in registration order, so none of them leaks. |
| `ImportName.ExportedOutcome` | lib/gssapi/mech/gss_import_name.c:143-169 | A malformed token gives BAD_NAME. An unknown OID, or a mechanism without `gm_import_name`, gives BAD_MECH. The mechanism is given the whole original token, and its failure status is returned unchanged. A failed wrap releases the mechanism's name and gives FAILURE. |
| `ImportName.ExportedMechMatchesToken` | lib/gssapi/mech/gss_import_name.c:143-166 | A successful exported-name import holds one mechanism name. It comes from a mechanism whose OID is the token's and which imported the full token as that handle. |
| `ImportName.ImportExportName` | lib/gssapi/mech/gss_import_name.c:31-170 | `_gss_import_export_name` returns the status and releases of `ExportedImport`. On success, and only then, it returns a fresh name holding that mechanism name. |
| `ImportName.GssImportName` | lib/gssapi/mech/gss_import_name.c:198-323 | `gss_import_name` checks its arguments, then routes exported types to the parser path and others to the mechanism loop. On success, and only then, it returns a fresh name with the mechanism names of `ImportNameSpec`, the copied value and the type. On failure it releases the partial name's mechanism names. |

## Left out

- `lib/kadm5/chpass_s.c` is not part of this model. Its functions are sequences of calls into HDB, the kadm5 log and the plugin runner, none of which are visible.
- `_gss_load_mech` (line 220), the load-once, thread-safe registry set-up, is not modelled. The registry is an ordered sequence of `Mech` values given as a parameter.
- Minor status codes and the `_gss_mg_error` diagnostics (lines 153 and 288) are not modelled. Only major statuses and release calls are.
- The algorithms behind each mechanism's `gm_import_name` and `gm_release_name` are foreign function pointers. Import outcomes are an oracle in `Env`, and a release is recorded as the mechanism name handed back.
- The internals of `_gss_intern_oid`, `_gss_copy_buffer`, `gss_test_oid_set_member`, `_gss_create_name`, `gss_release_name`, `__gss_get_mechanism` and `gss_oid_equal` are not shown. Only their outcomes are modelled:
  - the intern is modelled as succeeding or failing;
  - the copy gives its major status;
  - the membership test either errors or reports membership;
  - create succeeds or fails;
  - the lookup takes the first match;
  - a missing type never equals an exported-name type.
- `ImportName.GenericName.FromMechName`: the value and type that `_gss_create_name(canonical, m)` gives the wrapper name are not visible, so the model leaves them empty.
- `ImportName.GssImportName`: the C code calls `gm_import_name` in the generic loop without checking for NULL. The model does not consult `hasImport` on that path, and treats every eligible mechanism as having an import entry.
- `ExportToken.ParseExportName`: a 32-bit `size_t` budget `t` is not modelled. There a long-form length can wrap `t` and `mech_oid.length` to the same value, for example the composite token 04 02 00 00 06 80, then 124 zero octets, then FF FF FF 7E. The check at line 124 then passes and the lookup at line 143 runs, giving GSS_S_BAD_MECH where the model gives GSS_S_BAD_NAME.
- `ExportToken.ParseExportName`: the signed shift of `p[0] << 24` at line 135 is not modelled. NAME_LEN is read as an unbounded value, so a name of 2^31 octets or more, whose length C sign-extends, is not covered.
- Memory ownership and freeing of buffers (the copied value, the interned type, the list nodes) are not modelled beyond the `gm_release_name` calls and the empty state `Release` leaves behind.
