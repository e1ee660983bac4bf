/** `gss_import_name` and `_gss_import_export_name`: routing a name either
    through the exported-name token to the one mechanism it names, or to
    every registered mechanism that accepts its name type, collecting the
    mechanism names that succeed into one GenericName. */
module ImportName {
  import opened Glue
  import opened ExportToken

  /** The name object `struct _gss_name`: its interned type (gn_type), its
      copied value (gn_value) and its list of mechanism names (gn_mn), kept
      in insertion order. */
  class GenericName {
    var nameType: Option<Oid>
    var value: seq<byte>
    var mns: seq<MechName>

    /** `_gss_create_name(NULL, NULL)`: an empty name. */
    constructor Empty()
      ensures nameType == None && value == [] && mns == []
    {
      nameType, value, mns := None, [], [];
    }

    /** `_gss_create_name(canonical, m)`: a name that is one mechanism name. */
    constructor FromMechName(mn: MechName)
      ensures nameType == None && value == [] && mns == [mn]
    {
      nameType, value, mns := None, [], [mn];
    }

    /** HEIM_TAILQ_INSERT_TAIL on gn_mn. */
    method Append(mn: MechName)
      modifies this
      ensures mns == old(mns) + [mn]
      ensures nameType == old(nameType) && value == old(value)
    {
      mns := mns + [mn];
    }

    /** `gss_release_name`: one `gm_release_name` call per mechanism name, on
        that name's own mechanism, in list order (returned as `released`);
        then the value and the type are dropped. */
    method Release() returns (released: seq<MechName>)
      modifies this
      ensures released == old(mns)
      ensures mns == [] && value == [] && nameType == None
    {
      released := mns;
      nameType, value, mns := None, [], [];
    }
  }

  /** Whether a name type is one of the two exported-name types. */
  predicate IsExportType(nameType: Option<Oid>)
  {
    nameType == Some(ExportNameOid) || nameType == Some(CompositeExportOid)
  }

  /** `__gss_get_mechanism`: the first registered mechanism with that OID. */
  function Lookup(reg: seq<Mech>, oid: Oid): (r: Option<nat>)
    ensures r.Some? ==> r.value < |reg| && reg[r.value].oid == oid
    ensures r.Some? ==> forall j :: 0 <= j < r.value ==> reg[j].oid != oid
    ensures r.None? ==> forall j :: 0 <= j < |reg| ==> reg[j].oid != oid
  {
    if reg == [] then None
    else if reg[0].oid == oid then Some(0)
    else match Lookup(reg[1..], oid)
      case None => None
      case Some(j) => Some(j + 1)
  }

  /** Mechanism i is asked to import the name: it is not GM_USE_MG_NAME and,
      when a type is given, the membership test succeeds and finds the type
      among the mechanism's name types. */
  predicate Eligible(reg: seq<Mech>, i: nat, nameType: Option<Oid>, env: Env)
    requires i < |reg|
  {
    !reg[i].useMgName &&
    (nameType.None? || (!env.memberTestFails(i) && nameType.value in reg[i].nameTypes))
  }

  /** mn is what the generic loop appends for its mechanism: that mechanism was
      eligible, its node was allocated, and it imported the name as mn.handle. */
  predicate Produced(reg: seq<Mech>, mn: MechName, value: seq<byte>, nameType: Option<Oid>, env: Env)
  {
    mn.mech < |reg| && Eligible(reg, mn.mech, nameType, env) && env.nodeAllocOk(mn.mech) &&
    env.importName(mn.mech, value, nameType) == Imported(mn.handle) &&
    mn.mechOid == reg[mn.mech].oid
  }

  /** The state of the generic loop: still going with the list built so far,
      or stopped by a failed node allocation with the list built until then. */
  datatype Walked = Finished(mns: seq<MechName>) | OutOfMemory(mns: seq<MechName>)

  /** The generic loop over the first k registered mechanisms. */
  function Walk(reg: seq<Mech>, k: nat, value: seq<byte>, nameType: Option<Oid>, env: Env): Walked
    requires k <= |reg|
    decreases k
  {
    if k == 0 then Finished([])
    else match Walk(reg, k - 1, value, nameType, env)
      case OutOfMemory(mns) => OutOfMemory(mns)
      case Finished(mns) =>
        var i := k - 1;
        if !Eligible(reg, i, nameType, env) then Finished(mns)
        else if !env.nodeAllocOk(i) then OutOfMemory(mns)
        else match env.importName(i, value, nameType)
          case Rejected(_) => Finished(mns)
          case Imported(h) => Finished(mns + [MechName(i, reg[i].oid, h)])
  }

  /** Once a node allocation has failed the loop is over: the later
      mechanisms are never asked. */
  lemma {:induction false} WalkStaysStopped(reg: seq<Mech>, k: nat, k': nat, value: seq<byte>,
                                            nameType: Option<Oid>, env: Env)
    requires k <= k' <= |reg| && Walk(reg, k, value, nameType, env).OutOfMemory?
    ensures Walk(reg, k', value, nameType, env) == Walk(reg, k, value, nameType, env)
    decreases k'
  {
    if k' > k {
      WalkStaysStopped(reg, k, k' - 1, value, nameType, env);
    }
  }

  /** The mechanism names are in strictly increasing registration order. */
  predicate InRegistrationOrder(mns: seq<MechName>)
  {
    forall j1, j2 :: 0 <= j1 < j2 < |mns| ==> mns[j1].mech < mns[j2].mech
  }

  /** Every mechanism name is one the generic loop appends for one of the
      first k mechanisms. */
  predicate AllProduced(reg: seq<Mech>, k: nat, mns: seq<MechName>, value: seq<byte>, nameType: Option<Oid>, env: Env)
  {
    forall j :: 0 <= j < |mns| ==> mns[j].mech < k && Produced(reg, mns[j], value, nameType, env)
  }

  /** Every mechanism name the loop appends was produced by its own mechanism
      for this value and type, and the names appear in registration order. */
  lemma {:induction false} WalkSound(reg: seq<Mech>, k: nat, value: seq<byte>, nameType: Option<Oid>, env: Env)
    requires k <= |reg|
    ensures AllProduced(reg, k, Walk(reg, k, value, nameType, env).mns, value, nameType, env)
    ensures InRegistrationOrder(Walk(reg, k, value, nameType, env).mns)
  {
    if k > 0 {
      WalkSound(reg, k - 1, value, nameType, env);
      var i := k - 1;
      var w := Walk(reg, k - 1, value, nameType, env);
      if w.Finished? && Eligible(reg, i, nameType, env) && env.nodeAllocOk(i) && env.importName(i, value, nameType).Imported? {
        var mn := MechName(i, reg[i].oid, env.importName(i, value, nameType).handle);
        assert Walk(reg, k, value, nameType, env).mns == w.mns + [mn];
        assert Produced(reg, mn, value, nameType, env);
      } else {
        assert Walk(reg, k, value, nameType, env).mns == w.mns;
      }
    }
  }

  /** The loop runs out of memory exactly when some eligible mechanism's node
      cannot be allocated. */
  lemma {:induction false} WalkOutOfMemory(reg: seq<Mech>, k: nat, value: seq<byte>, nameType: Option<Oid>, env: Env)
    requires k <= |reg|
    ensures Walk(reg, k, value, nameType, env).OutOfMemory? <==>
      exists i :: 0 <= i < k && Eligible(reg, i, nameType, env) && !env.nodeAllocOk(i)
  {
    if k > 0 {
      WalkOutOfMemory(reg, k - 1, value, nameType, env);
    }
  }

  /** When the loop finishes, every eligible mechanism that imports the name
      has its mechanism name in the list: a rejection by one mechanism costs
      only that mechanism's entry. */
  lemma {:induction false} WalkComplete(reg: seq<Mech>, k: nat, value: seq<byte>, nameType: Option<Oid>, env: Env)
    requires k <= |reg| && Walk(reg, k, value, nameType, env).Finished?
    ensures forall i :: 0 <= i < k && Eligible(reg, i, nameType, env) && env.importName(i, value, nameType).Imported? ==>
      MechName(i, reg[i].oid, env.importName(i, value, nameType).handle) in Walk(reg, k, value, nameType, env).mns
  {
    if k > 0 {
      assert Walk(reg, k - 1, value, nameType, env).Finished?;
      WalkComplete(reg, k - 1, value, nameType, env);
    }
  }

  /** The list with the mechanism names of mechanism f taken out. */
  function Without(mns: seq<MechName>, f: nat): (r: seq<MechName>)
    ensures forall mn :: mn in r <==> mn in mns && mn.mech != f
  {
    if mns == [] then []
    else
      var last := mns[|mns| - 1];
      Without(mns[.. |mns| - 1], f) + (if last.mech == f then [] else [last])
  }

  lemma WithoutAppend(mns: seq<MechName>, mn: MechName, f: nat)
    ensures Without(mns + [mn], f) == Without(mns, f) + (if mn.mech == f then [] else [mn])
  {
    assert (mns + [mn])[.. |mns|] == mns;
  }

  /** Turning mechanism f's import into a rejection changes nothing but
      the absence of f's mechanism name: the other mechanisms are asked and
      appended exactly as before. */
  lemma {:induction false} RejectionIsolated(reg: seq<Mech>, k: nat, value: seq<byte>, nameType: Option<Oid>,
                                             env: Env, env': Env, f: nat)
    requires k <= |reg|
    requires forall i :: env'.memberTestFails(i) == env.memberTestFails(i)
    requires forall i :: env'.nodeAllocOk(i) == env.nodeAllocOk(i)
    requires forall i :: i != f ==> env'.importName(i, value, nameType) == env.importName(i, value, nameType)
    requires env'.importName(f, value, nameType).Rejected?
    ensures Walk(reg, k, value, nameType, env').OutOfMemory? == Walk(reg, k, value, nameType, env).OutOfMemory?
    ensures Walk(reg, k, value, nameType, env').mns == Without(Walk(reg, k, value, nameType, env).mns, f)
  {
    if k > 0 {
      RejectionIsolated(reg, k - 1, value, nameType, env, env', f);
      RejectionStep(reg, k - 1, value, nameType, env, env', f);
    }
  }

  /** One iteration of the proof above: mechanism i is treated alike under
      both environments except that f's name is never appended. */
  lemma RejectionStep(reg: seq<Mech>, i: nat, value: seq<byte>, nameType: Option<Oid>,
                      env: Env, env': Env, f: nat)
    requires i < |reg|
    requires env'.memberTestFails(i) == env.memberTestFails(i)
    requires env'.nodeAllocOk(i) == env.nodeAllocOk(i)
    requires i != f ==> env'.importName(i, value, nameType) == env.importName(i, value, nameType)
    requires i == f ==> env'.importName(i, value, nameType).Rejected?
    requires Walk(reg, i, value, nameType, env').OutOfMemory? == Walk(reg, i, value, nameType, env).OutOfMemory?
    requires Walk(reg, i, value, nameType, env').mns == Without(Walk(reg, i, value, nameType, env).mns, f)
    ensures Walk(reg, i + 1, value, nameType, env').OutOfMemory? == Walk(reg, i + 1, value, nameType, env).OutOfMemory?
    ensures Walk(reg, i + 1, value, nameType, env').mns == Without(Walk(reg, i + 1, value, nameType, env).mns, f)
  {
    assert Eligible(reg, i, nameType, env') == Eligible(reg, i, nameType, env);
    var w := Walk(reg, i, value, nameType, env);
    if w.Finished? && Eligible(reg, i, nameType, env) && env.nodeAllocOk(i) {
      match env.importName(i, value, nameType)
      case Rejected(_) =>
      case Imported(h) =>
        WithoutAppend(w.mns, MechName(i, reg[i].oid, h), f);
    }
  }

  /** With every mechanism eligible and every allocation succeeding, a single
      rejecting mechanism f leaves the names of all the others, in order. */
  lemma {:induction false} AllButOneImport(reg: seq<Mech>, k: nat, value: seq<byte>, nameType: Option<Oid>,
                                           env: Env, f: nat)
    requires k <= |reg| && f < |reg|
    requires forall i :: 0 <= i < |reg| ==> Eligible(reg, i, nameType, env) && env.nodeAllocOk(i)
    requires forall i :: 0 <= i < |reg| && i != f ==> env.importName(i, value, nameType).Imported?
    requires env.importName(f, value, nameType).Rejected?
    ensures Walk(reg, k, value, nameType, env).Finished?
    ensures |Walk(reg, k, value, nameType, env).mns| == if k <= f then k else k - 1
    ensures forall j :: 0 <= j < |Walk(reg, k, value, nameType, env).mns| ==>
      Walk(reg, k, value, nameType, env).mns[j].mech == if j < f then j else j + 1
  {
    if k > 0 {
      AllButOneImport(reg, k - 1, value, nameType, env, f);
    }
  }

  /** What one call does: the status, the mechanism names of the name it
      hands back (none when it hands back none), and the `gm_release_name`
      calls it makes on the way, in order. */
  datatype Effect = Effect(status: Major, mns: seq<MechName>, released: seq<MechName>)

  /** The generic path of `gss_import_name`. */
  function GenericImport(value: seq<byte>, nameType: Option<Oid>, reg: seq<Mech>, env: Env): Effect
  {
    if !env.createOk then Effect(Failure, [], [])
    else if nameType.Some? && !env.internOk then Effect(Failure, [], [])
    else if env.copyStatus != Complete then Effect(env.copyStatus, [], [])
    else match Walk(reg, |reg|, value, nameType, env)
      case OutOfMemory(built) => Effect(Failure, [], built)
      case Finished(built) =>
        if built == [] then Effect(NameNotMN, [], []) else Effect(Complete, built, [])
  }

  /** `_gss_import_export_name`: the mechanism named in the token imports the
      whole token. */
  function ExportedImport(tok: seq<byte>, nameType: Oid, reg: seq<Mech>, env: Env): Effect
  {
    match ParseToken(tok)
    case Err(s) => Effect(s, [], [])
    case Ok(token) =>
      match Lookup(reg, token.mechOid)
      case None => Effect(BadMech, [], [])
      case Some(i) =>
        if !reg[i].hasImport then Effect(BadMech, [], [])
        else match env.importName(i, tok, Some(nameType))
          case Rejected(s) => Effect(s, [], [])
          case Imported(h) =>
            var mn := MechName(i, reg[i].oid, h);
            if env.wrapOk then Effect(Complete, [mn], []) else Effect(Failure, [], [mn])
  }

  /** `gss_import_name`: argument checks, then one of the two paths. */
  function ImportNameSpec(input: Option<seq<byte>>, hasOutput: bool, nameType: Option<Oid>,
                          reg: seq<Mech>, env: Env): Effect
  {
    if input.None? then Effect(CallInaccessibleRead, [], [])
    else if !hasOutput then Effect(CallInaccessibleWrite, [], [])
    else if IsExportType(nameType) then ExportedImport(input.value, nameType.value, reg, env)
    else GenericImport(input.value, nameType, reg, env)
  }

  /** A missing input buffer or output slot is reported before anything else
      happens. */
  lemma ArgumentChecks(input: Option<seq<byte>>, hasOutput: bool, nameType: Option<Oid>, reg: seq<Mech>, env: Env)
    ensures input.None? ==> ImportNameSpec(input, hasOutput, nameType, reg, env) == Effect(CallInaccessibleRead, [], [])
    ensures input.Some? && !hasOutput ==>
      ImportNameSpec(input, hasOutput, nameType, reg, env) == Effect(CallInaccessibleWrite, [], [])
  {
  }

  /** A name is handed back exactly on GSS_S_COMPLETE, and it then holds at
      least one mechanism name and nothing was released; on failure nothing
      is handed back. */
  lemma SuccessHoldsMechNames(input: Option<seq<byte>>, hasOutput: bool, nameType: Option<Oid>, reg: seq<Mech>, env: Env)
    ensures var e := ImportNameSpec(input, hasOutput, nameType, reg, env);
      (e.status == Complete ==> |e.mns| >= 1 && e.released == []) &&
      (e.status != Complete ==> e.mns == [])
  {
  }

  /** The generic path once the name is set up and no allocation fails:
      GSS_S_NAME_NOT_MN exactly when no eligible mechanism imports the value,
      GSS_S_COMPLETE otherwise, with exactly the mechanism names the eligible
      mechanisms produced, in registration order. */
  lemma GenericOutcome(value: seq<byte>, nameType: Option<Oid>, reg: seq<Mech>, env: Env)
    requires env.createOk && (nameType.Some? ==> env.internOk) && env.copyStatus == Complete
    requires forall i :: 0 <= i < |reg| && Eligible(reg, i, nameType, env) ==> env.nodeAllocOk(i)
    ensures GenericImport(value, nameType, reg, env).released == []
    ensures GenericImport(value, nameType, reg, env).status == NameNotMN <==>
      forall i :: 0 <= i < |reg| && Eligible(reg, i, nameType, env) ==> env.importName(i, value, nameType).Rejected?
    ensures GenericImport(value, nameType, reg, env).status in {NameNotMN, Complete}
    ensures forall mn :: mn in GenericImport(value, nameType, reg, env).mns <==> Produced(reg, mn, value, nameType, env)
    ensures InRegistrationOrder(GenericImport(value, nameType, reg, env).mns)
  {
    WalkOutOfMemory(reg, |reg|, value, nameType, env);
    WalkSound(reg, |reg|, value, nameType, env);
    WalkComplete(reg, |reg|, value, nameType, env);
    var mns := Walk(reg, |reg|, value, nameType, env).mns;
    forall i | 0 <= i < |reg| && Eligible(reg, i, nameType, env) && env.importName(i, value, nameType).Imported?
      ensures mns != []
    {
      assert MechName(i, reg[i].oid, env.importName(i, value, nameType).handle) in mns;
    }
    if mns != [] {
      assert Produced(reg, mns[0], value, nameType, env);
    }
  }

  /** Every failure of the generic path hands back nothing, and what it
      releases are mechanism names the loop built, each going back to its
      own mechanism, in registration order. */
  lemma GenericFailureReleases(value: seq<byte>, nameType: Option<Oid>, reg: seq<Mech>, env: Env)
    ensures var e := GenericImport(value, nameType, reg, env);
      e.status != Complete ==>
        e.mns == [] &&
        AllProduced(reg, |reg|, e.released, value, nameType, env) &&
        InRegistrationOrder(e.released)
    ensures var e := GenericImport(value, nameType, reg, env);
      e.released != [] ==> e.status == Failure && exists i :: 0 <= i < |reg| && Eligible(reg, i, nameType, env) && !env.nodeAllocOk(i)
  {
    WalkSound(reg, |reg|, value, nameType, env);
    WalkOutOfMemory(reg, |reg|, value, nameType, env);
  }

  /** Nothing leaks when a node allocation fails: if mechanism k is the first
      eligible one whose node cannot be allocated, the call fails, hands back
      nothing, and releases exactly the mechanism names that the mechanisms
      before k produced, in registration order. */
  lemma GenericOutOfMemoryReleasesAll(value: seq<byte>, nameType: Option<Oid>, reg: seq<Mech>, env: Env, k: nat)
    requires env.createOk && (nameType.Some? ==> env.internOk) && env.copyStatus == Complete
    requires k < |reg| && Eligible(reg, k, nameType, env) && !env.nodeAllocOk(k)
    requires forall i :: 0 <= i < k && Eligible(reg, i, nameType, env) ==> env.nodeAllocOk(i)
    ensures GenericImport(value, nameType, reg, env).status == Failure
    ensures GenericImport(value, nameType, reg, env).mns == []
    ensures forall mn :: mn in GenericImport(value, nameType, reg, env).released <==>
      Produced(reg, mn, value, nameType, env) && mn.mech < k
    ensures InRegistrationOrder(GenericImport(value, nameType, reg, env).released)
  {
    WalkOutOfMemory(reg, k, value, nameType, env);
    var built := Walk(reg, k, value, nameType, env).mns;
    assert Walk(reg, k + 1, value, nameType, env) == OutOfMemory(built);
    WalkStaysStopped(reg, k + 1, |reg|, value, nameType, env);
    WalkSound(reg, k, value, nameType, env);
    WalkComplete(reg, k, value, nameType, env);
    forall mn | Produced(reg, mn, value, nameType, env) && mn.mech < k
      ensures mn in built
    {
      assert mn == MechName(mn.mech, reg[mn.mech].oid, env.importName(mn.mech, value, nameType).handle);
    }
  }

  /** The exported-name path: a malformed token is GSS_S_BAD_NAME; an OID no
      mechanism has, or one without `gm_import_name`, is GSS_S_BAD_MECH;
      success is one mechanism name from the looked-up mechanism, which was
      given the whole token; a mechanism's failure status comes back as it is;
      a failed wrap releases the mechanism's name and is GSS_S_FAILURE. */
  lemma ExportedOutcome(tok: seq<byte>, nameType: Oid, reg: seq<Mech>, env: Env)
    ensures ParseToken(tok).Err? ==> ExportedImport(tok, nameType, reg, env) == Effect(BadName, [], [])
    ensures ParseToken(tok).Ok? ==>
      var found := Lookup(reg, ParseToken(tok).value.mechOid);
      (found.None? || !reg[found.value].hasImport) ==> ExportedImport(tok, nameType, reg, env) == Effect(BadMech, [], [])
    ensures ParseToken(tok).Ok? ==>
      var found := Lookup(reg, ParseToken(tok).value.mechOid);
      found.Some? && reg[found.value].hasImport ==>
        var i := found.value;
        match env.importName(i, tok, Some(nameType))
        case Rejected(s) => ExportedImport(tok, nameType, reg, env) == Effect(s, [], [])
        case Imported(h) =>
          ExportedImport(tok, nameType, reg, env) ==
            if env.wrapOk then Effect(Complete, [MechName(i, reg[i].oid, h)], [])
            else Effect(Failure, [], [MechName(i, reg[i].oid, h)])
  {
  }

  /** An exported-name import that succeeds went to a mechanism whose OID is
      the one in the token. */
  lemma ExportedMechMatchesToken(tok: seq<byte>, nameType: Oid, reg: seq<Mech>, env: Env)
    requires ExportedImport(tok, nameType, reg, env).status == Complete
    ensures ParseToken(tok).Ok?
    ensures var mns := ExportedImport(tok, nameType, reg, env).mns;
      |mns| == 1 && mns[0].mech < |reg| && reg[mns[0].mech].hasImport &&
      mns[0].mechOid == reg[mns[0].mech].oid == ParseToken(tok).value.mechOid &&
      env.importName(mns[0].mech, tok, Some(nameType)) == Imported(mns[0].handle)
  {
  }

  /** `_gss_import_export_name`. */
  method ImportExportName(tok: seq<byte>, nameType: Oid, reg: seq<Mech>, env: Env)
    returns (status: Major, name: GenericName?, released: seq<MechName>)
    ensures status == ExportedImport(tok, nameType, reg, env).status
    ensures released == ExportedImport(tok, nameType, reg, env).released
    ensures status == Complete <==> name != null
    ensures name != null ==> fresh(name) && name.mns == ExportedImport(tok, nameType, reg, env).mns
  {
    name, released := null, [];
    var parsed := ParseExportName(tok);
    if parsed.Err? {
      return parsed.status, null, [];
    }
    var found := Lookup(reg, parsed.value.mechOid);
    if found.None? || !reg[found.value].hasImport {
      return BadMech, null, [];
    }
    var i := found.value;
    var outcome := env.importName(i, tok, Some(nameType));
    if outcome.Rejected? {
      return outcome.status, null, [];
    }
    var mn := MechName(i, reg[i].oid, outcome.handle);
    if !env.wrapOk {
      return Failure, null, [mn];
    }
    name := new GenericName.FromMechName(mn);
    status := Complete;
  }

  /** `gss_import_name`. */
  method GssImportName(input: Option<seq<byte>>, hasOutput: bool, nameType: Option<Oid>,
                       reg: seq<Mech>, env: Env)
    returns (status: Major, name: GenericName?, released: seq<MechName>)
    ensures status == ImportNameSpec(input, hasOutput, nameType, reg, env).status
    ensures released == ImportNameSpec(input, hasOutput, nameType, reg, env).released
    ensures status == Complete <==> name != null
    ensures name != null ==> fresh(name) && name.mns == ImportNameSpec(input, hasOutput, nameType, reg, env).mns
    ensures name != null && !IsExportType(nameType) ==> name.value == input.value && name.nameType == nameType
  {
    name, released := null, [];
    if input.None? {
      return CallInaccessibleRead, null, [];
    }
    if !hasOutput {
      return CallInaccessibleWrite, null, [];
    }
    if IsExportType(nameType) {
      status, name, released := ImportExportName(input.value, nameType.value, reg, env);
      return;
    }
    if !env.createOk {
      return Failure, null, [];
    }
    var n := new GenericName.Empty();
    if nameType.Some? {
      if !env.internOk {
        released := n.Release();
        return Failure, null, released;
      }
      n.nameType := nameType;
    }
    if env.copyStatus != Complete {
      released := n.Release();
      return env.copyStatus, null, released;
    }
    n.value := input.value;

    var i := 0;
    while i < |reg|
      invariant 0 <= i <= |reg|
      invariant n.value == input.value && n.nameType == nameType
      invariant Walk(reg, i, n.value, n.nameType, env) == Finished(n.mns)
    {
      var m := reg[i];
      var asked := !m.useMgName;
      if asked && nameType.Some? {
        var present := nameType.value in m.nameTypes;
        asked := !env.memberTestFails(i) && present;
      }
      if asked {
        if !env.nodeAllocOk(i) {
          WalkStaysStopped(reg, i + 1, |reg|, n.value, n.nameType, env);
          released := n.Release();
          return Failure, null, released;
        }
        var outcome := env.importName(i, n.value, n.nameType);
        if outcome.Imported? {
          n.Append(MechName(i, m.oid, outcome.handle));
        }
      }
      i := i + 1;
    }

    if n.mns == [] {
      released := n.Release();
      return NameNotMN, null, released;
    }
    name, status := n, Complete;
  }
}
