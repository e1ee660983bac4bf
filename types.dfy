/** Shared vocabulary of the GSS-API mechanism glue: status codes, object
    identifiers, mechanism descriptors, mechanism names, and the outcomes of
    the collaborators (mechanism entry points, allocator, OID store) whose
    code is not part of this model. */
module Glue {

  /** An octet. */
  type byte = b: int | 0 <= b < 0x100

  /** The content octets of a DER object identifier, compared byte by byte. */
  type Oid = seq<byte>

  /** A mechanism-defined opaque name (`gss_name_t` returned by a mechanism). */
  type Handle = nat

  datatype Option<T> = None | Some(value: T)

  /** GSS-API major status codes (calling errors and routine errors of
      section 3.9.1 of RFC 2744); a mechanism may return any other code. */
  datatype Major =
    | Complete
    | BadMech
    | BadName
    | BadNameType
    | NameNotMN
    | Failure
    | CallInaccessibleRead
    | CallInaccessibleWrite
    | OtherStatus(code: nat)

  /** A status a failing call reports: anything but GSS_S_COMPLETE. */
  type ErrorMajor = s: Major | s != Complete witness Failure

  datatype Result<T> = Ok(value: T) | Err(status: ErrorMajor)

  /** GSS_C_NT_EXPORT_NAME, 1.3.6.1.5.6.4 (section 4.7 of RFC 2743). */
  const ExportNameOid: Oid := [0x2B, 0x06, 0x01, 0x05, 0x06, 0x04]

  /** GSS_C_NT_COMPOSITE_EXPORT, 1.3.6.1.5.6.6 (section 8 of RFC 6680). */
  const CompositeExportOid: Oid := [0x2B, 0x06, 0x01, 0x05, 0x06, 0x06]

  /** A registered mechanism (`struct _gss_mech_switch`): its OID, the name
      types it accepts, the GM_USE_MG_NAME flag, and whether it provides
      `gm_import_name`. */
  datatype Mech = Mech(oid: Oid, nameTypes: set<Oid>, useMgName: bool, hasImport: bool)

  /** A mechanism name (`struct _gss_mechanism_name`): the index of its
      mechanism in the registry (gmn_mech), that mechanism's OID
      (gmn_mech_oid) and the mechanism's own name (gmn_name). */
  datatype MechName = MechName(mech: nat, mechOid: Oid, handle: Handle)

  /** What a mechanism's `gm_import_name` gives back. */
  datatype Outcome = Imported(handle: Handle) | Rejected(status: ErrorMajor)

  /** The outcomes of everything the importer calls but does not own.
      - importName(i, buffer, type): mechanism i's `gm_import_name`
      - memberTestFails(i): `gss_test_oid_set_member` reports an error for mechanism i
      - nodeAllocOk(i): the `malloc` of the list node before mechanism i is asked
      - createOk: `_gss_create_name(NULL, NULL)` returns a name
      - internOk: `_gss_intern_oid` of the requested name type succeeds
      - copyStatus: major status of `_gss_copy_buffer` of the input value
      - wrapOk: `_gss_create_name(canonical, m)` on the exported-name path */
  datatype Env = Env(
    importName: (nat, seq<byte>, Option<Oid>) -> Outcome,
    memberTestFails: nat -> bool,
    nodeAllocOk: nat -> bool,
    createOk: bool,
    internOk: bool,
    copyStatus: Major,
    wrapOk: bool)
}
