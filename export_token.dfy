/** The exported-name token of section 3.2 of RFC 2743 and its composite
    variant of RFC 6680, as `_gss_import_export_name` reads it:

      04 01|02  T(be16)  06  L  OID[L]  NAME_LEN(be32)  NAME[NAME_LEN]

    where T counts the tag, the length octets and the OID content, and the
    NAME_LEN/NAME part is only checked for the plain (04 01) token. The
    grammar is the function ParseToken; ParseExportName is the source's cursor
    walk over the buffer, proved to agree with it. */
module ExportToken {
  import opened Glue
  import opened BigEndian

  /** What the parser extracts: the composite flag, the mechanism OID, and
      what follows (the NAME of a plain token, everything after the OID of a
      composite one). */
  datatype Token = Token(composite: bool, mechOid: Oid, rest: seq<byte>)

  /** The DER length of the mechanism OID as the source decodes it: its value
      and the number of octets it occupies. */
  datatype OidLength = OidLength(value: nat, width: nat)

  /** The OID length field starting at tok[at]. A first octet below 0x80 is
      the length itself. Otherwise the WHOLE first octet (high bit included,
      so 128 to 255) is taken as the count of big-endian octets that follow,
      accumulated into an OM_uint32; this is not the low-7-bit count of
      section 8.1.3.5 of ITU-T X.690. None when the buffer ends first. */
  function ReadOidLength(tok: seq<byte>, at: nat): (r: Option<OidLength>)
    ensures r.Some? ==> 1 <= r.value.width && at + r.value.width <= |tok|
    ensures r.Some? && tok[at] < 0x80 ==> r.value == OidLength(tok[at], 1)
    ensures r.Some? && tok[at] >= 0x80 ==>
      r.value.width == tok[at] as nat + 1 &&
      r.value.value == BeValue(tok[at + 1 .. at + 1 + tok[at]]) % Two32
  {
    if at >= |tok| then None
    else if tok[at] < 0x80 then Some(OidLength(tok[at], 1))
    else if |tok| - (at + 1) < tok[at] then None
    else
      BeWrap32IsValueMod(tok[at + 1 .. at + 1 + tok[at]]);
      Some(OidLength(BeWrap32(tok[at + 1 .. at + 1 + tok[at]]), tok[at] as nat + 1))
  }

  /** The exported-name token grammar. Every rejection is GSS_S_BAD_NAME. */
  function ParseToken(tok: seq<byte>): Result<Token>
  {
    if |tok| < 2 || tok[0] != 0x04 || (tok[1] != 0x01 && tok[1] != 0x02) then Err(BadName)
    else if |tok| < 4 then Err(BadName)
    else if |tok| < 5 || tok[4] != 0x06 then Err(BadName)
    else match ReadOidLength(tok, 5)
      case None => Err(BadName)
      case Some(l) =>
        var t := Be16(tok[2], tok[3]) - 1 - l.width;
        var start := 5 + l.width;
        if l.value != t then Err(BadName)
        else if tok[1] == 0x02 then
          if |tok| - start < t then Err(BadName)
          else Ok(Token(true, tok[start .. start + t], tok[start + t ..]))
        else if |tok| - start < t + 4 then Err(BadName)
        else if Be32(tok[start + t .. start + t + 4]) != |tok| - (start + t + 4) then Err(BadName)
        else Ok(Token(false, tok[start .. start + t], tok[start + t + 4 ..]))
  }

  /** The cursor walk of `_gss_import_export_name`: `p` advances while `len`
      (octets left) and `t` (the mechanism-field budget) count down. Where
      the source reads `p[0]` without checking `len` (the OID tag, the first
      length octet, each long-form length octet, and the composite OID
      slice), this model checks and rejects with GSS_S_BAD_NAME. */
  method ParseExportName(tok: seq<byte>) returns (r: Result<Token>)
    ensures r == ParseToken(tok)
  {
    var p: nat := 0;
    var len: int := |tok|;
    if len < 2 || tok[p] != 0x04 {
      return Err(BadName);
    }
    var composite := false;
    if tok[p + 1] == 0x01 {
    } else if tok[p + 1] == 0x02 {
      composite := true;
    } else {
      return Err(BadName);
    }
    p, len := p + 2, len - 2;

    if len < 2 {
      return Err(BadName);
    }
    var t: int := Be16(tok[p], tok[p + 1]);
    p, len := p + 2, len - 2;

    if len < 1 || tok[p] != 0x06 {   // len < 1: added guard
      return Err(BadName);
    }
    p, len, t := p + 1, len - 1, t - 1;

    if len < 1 {                     // added guard
      return Err(BadName);
    }
    var oidLen: nat;
    if tok[p] >= 0x80 {
      var digits: nat := tok[p];
      p, len, t := p + 1, len - 1, t - 1;
      var got := ReadLongForm(tok);
      if got.None? {
        return Err(BadName);
      }
      oidLen := got.value;
      p, len, t := p + digits, len - digits, t - digits;
    } else {
      oidLen := tok[p];
      p, len, t := p + 1, len - 1, t - 1;
    }
    assert ReadOidLength(tok, 5) == Some(OidLength(oidLen, p - 5));
    assert t == Be16(tok[2], tok[3]) - 1 - (p - 5) && p + len == |tok|;
    if oidLen != t {
      return Err(BadName);
    }
    var oidAt := p;

    if !composite {
      if len < t + 4 {
        return Err(BadName);
      }
      p, len := p + t, len - t;
      var nameLen := Be32(tok[p .. p + 4]);
      p, len := p + 4, len - 4;
      if len != nameLen {
        return Err(BadName);
      }
      return Ok(Token(false, tok[oidAt .. oidAt + t], tok[p ..]));
    }
    if len < t {                     // added guard
      return Err(BadName);
    }
    return Ok(Token(true, tok[oidAt .. oidAt + t], tok[oidAt + t ..]));
  }

  /** The long-form length loop of `_gss_import_export_name`: one octet at a
      time after the count octet at offset 5, shifting each into an
      OM_uint32; running out of input (an added guard) is a rejection. */
  method ReadLongForm(tok: seq<byte>) returns (r: Option<nat>)
    requires 6 <= |tok| && tok[5] >= 0x80
    ensures r.Some? <==> ReadOidLength(tok, 5).Some?
    ensures r.Some? ==> r.value == ReadOidLength(tok, 5).value.value
  {
    var p: nat := 6;
    var len: int := |tok| - 6;
    var digits: nat := tok[5];
    var oidLen: nat := 0;
    while digits > 0
      invariant p + len == |tok| && 6 <= p <= |tok|
      invariant p - 6 + digits == tok[5]
      invariant oidLen == BeWrap32(tok[6 .. p])
    {
      if len < 1 {                 // added guard
        return None;
      }
      assert tok[6 .. p + 1][.. p - 6] == tok[6 .. p];
      oidLen := Shift32(oidLen, tok[p]);
      p, len := p + 1, len - 1;
      digits := digits - 1;
    }
    return Some(oidLen);
  }

  /** The mechanism field in its short form: tag 06, one length octet, the OID. */
  function MechField(oid: Oid): (f: seq<byte>)
    requires |oid| < 0x80
    ensures |f| == |oid| + 2
  {
    [0x06, |oid|] + oid
  }

  /** TOK_ID, the 16-bit mechanism-field length and the mechanism field. */
  function Header(composite: bool, oid: Oid): (h: seq<byte>)
    requires |oid| < 0x80
    ensures |h| == |oid| + 6
  {
    [0x04, if composite then 0x02 else 0x01] + Be16Bytes(|oid| + 2) + MechField(oid)
  }

  /** The exported name token of section 3.2 of RFC 2743 for a mechanism OID
      whose length fits the short DER form. */
  function Encode(oid: Oid, name: seq<byte>): (tok: seq<byte>)
    requires |oid| < 0x80 && |name| < Two32
    ensures |tok| == |oid| + |name| + 10
  {
    Header(false, oid) + Be32Bytes(|name|) + name
  }

  /** A composite exported name token: the same header with TOK_ID 04 02,
      then a mechanism-defined suffix. */
  function EncodeComposite(oid: Oid, suffix: seq<byte>): (tok: seq<byte>)
    requires |oid| < 0x80
    ensures |tok| == |oid| + |suffix| + 6
  {
    Header(true, oid) + suffix
  }

  /** A short-form header is read back as its own flag and OID; what follows
      is then checked against NAME_LEN for a plain token only. */
  lemma HeaderParse(composite: bool, oid: Oid, tail: seq<byte>)
    requires |oid| < 0x80
    ensures composite ==> ParseToken(Header(composite, oid) + tail) == Ok(Token(true, oid, tail))
    ensures !composite ==>
      ParseToken(Header(composite, oid) + tail) ==
        (if |tail| < 4 || Be32(tail[.. 4]) != |tail| - 4 then Err(BadName)
         else Ok(Token(false, oid, tail[4 ..])))
  {
    var tok := Header(composite, oid) + tail;
    var n := |oid|;
    Be16Canonical(tok[2], tok[3]);
    assert tok[2 .. 4] == Be16Bytes(n + 2);
    assert Be16(tok[2], tok[3]) == n + 2;
    assert tok[4] == 0x06 && tok[5] == n;
    assert ReadOidLength(tok, 5) == Some(OidLength(n, 1));
    assert tok[6 .. 6 + n] == oid;
    assert tok[6 + n ..] == tail;
    if !composite && |tail| >= 4 {
      assert tok[6 + n .. 6 + n + 4] == tail[.. 4];
      assert tok[6 + n + 4 ..] == tail[4 ..];
    }
  }

  /** Round trip: an encoded plain token parses back to its OID and name. */
  lemma RoundTrip(oid: Oid, name: seq<byte>)
    requires |oid| < 0x80 && |name| < Two32
    ensures ParseToken(Encode(oid, name)) == Ok(Token(false, oid, name))
  {
    var tail := Be32Bytes(|name|) + name;
    assert Encode(oid, name) == Header(false, oid) + tail;
    HeaderParse(false, oid, tail);
    assert tail[.. 4] == Be32Bytes(|name|) && tail[4 ..] == name;
  }

  /** Round trip for composite tokens: any suffix is accepted as it is. */
  lemma CompositeRoundTrip(oid: Oid, suffix: seq<byte>)
    requires |oid| < 0x80
    ensures ParseToken(EncodeComposite(oid, suffix)) == Ok(Token(true, oid, suffix))
  {
    HeaderParse(true, oid, suffix);
  }

  /** The plain/composite asymmetry: after the same header, a NAME_LEN that
      does not count the octets after it rejects the plain token and is
      accepted as part of the suffix of the composite one. */
  lemma NameLenAsymmetry(oid: Oid, nameLen: nat, name: seq<byte>)
    requires |oid| < 0x80 && nameLen < Two32 && nameLen != |name|
    ensures ParseToken(Header(false, oid) + Be32Bytes(nameLen) + name) == Err(BadName)
    ensures ParseToken(Header(true, oid) + Be32Bytes(nameLen) + name) ==
      Ok(Token(true, oid, Be32Bytes(nameLen) + name))
  {
    var tail := Be32Bytes(nameLen) + name;
    assert Header(false, oid) + Be32Bytes(nameLen) + name == Header(false, oid) + tail;
    assert Header(true, oid) + Be32Bytes(nameLen) + name == Header(true, oid) + tail;
    HeaderParse(false, oid, tail);
    HeaderParse(true, oid, tail);
    assert tail[.. 4] == Be32Bytes(nameLen);
  }

  /** The fields of a plain token accepted with a short-form OID length. */
  lemma ShortPlainFields(tok: seq<byte>, oid: Oid, name: seq<byte>)
    requires ParseToken(tok) == Ok(Token(false, oid, name))
    requires |tok| > 5 && tok[5] < 0x80
    ensures |oid| == tok[5] && |tok| == |oid| + |name| + 10
    ensures tok[0] == 0x04 && tok[1] == 0x01 && tok[4] == 0x06
    ensures Be16(tok[2], tok[3]) == |oid| + 2
    ensures tok[6 .. |oid| + 6] == oid && tok[|oid| + 10 ..] == name
    ensures Be32(tok[|oid| + 6 .. |oid| + 10]) == |name|
  {
    assert ReadOidLength(tok, 5) == Some(OidLength(tok[5], 1));
  }

  /** Conversely, a plain token accepted with a short-form OID length is
      exactly the encoding of what it was parsed into. */
  lemma CanonicalPlain(tok: seq<byte>, oid: Oid, name: seq<byte>)
    requires ParseToken(tok) == Ok(Token(false, oid, name))
    requires |tok| > 5 && tok[5] < 0x80
    ensures |oid| < 0x80 && |name| < Two32 && tok == Encode(oid, name)
  {
    ShortPlainFields(tok, oid, name);
    AssemblePlain(tok, oid, name);
  }

  /** Octets with the fields of a plain token's header are that header. */
  lemma AssembleHeader(h: seq<byte>, oid: Oid)
    requires |oid| < 0x80 && |h| == |oid| + 6
    requires h[0] == 0x04 && h[1] == 0x01 && h[4] == 0x06 && h[5] == |oid|
    requires Be16(h[2], h[3]) == |oid| + 2 && h[6 ..] == oid
    ensures h == Header(false, oid)
  {
    Be16Canonical(h[2], h[3]);
    assert h == [h[0], h[1]] + [h[2], h[3]] + [h[4], h[5]] + h[6 ..];
  }

  /** Octets with the fields of a plain token are that token's encoding. */
  lemma AssemblePlain(tok: seq<byte>, oid: Oid, name: seq<byte>)
    requires |oid| < 0x80 && |tok| == |oid| + |name| + 10
    requires tok[0] == 0x04 && tok[1] == 0x01 && tok[4] == 0x06 && tok[5] == |oid|
    requires Be16(tok[2], tok[3]) == |oid| + 2
    requires tok[6 .. |oid| + 6] == oid && tok[|oid| + 10 ..] == name
    requires Be32(tok[|oid| + 6 .. |oid| + 10]) == |name|
    ensures |name| < Two32 && tok == Encode(oid, name)
  {
    var n := |oid|;
    AssembleHeader(tok[.. n + 6], oid);
    Be32Canonical(tok[n + 6 .. n + 10]);
    assert tok == tok[.. n + 6] + tok[n + 6 .. n + 10] + tok[n + 10 ..];
  }

  /** Any accepted plain token ends in OID, a NAME_LEN equal to the number of
      octets after it, and those octets. */
  lemma PlainLayout(tok: seq<byte>, oid: Oid, name: seq<byte>)
    requires ParseToken(tok) == Ok(Token(false, oid, name))
    ensures |tok| >= |oid| + |name| + 10
    ensures var nameAt := |tok| - |name|;
      tok[nameAt ..] == name &&
      Be32(tok[nameAt - 4 .. nameAt]) == |name| &&
      tok[nameAt - 4 - |oid| .. nameAt - 4] == oid
  {
  }

  /** Every rejection is GSS_S_BAD_NAME, and an accepted token starts with
      04, carries the OID tag 06, and is composite exactly when TOK_ID is 04 02. */
  lemma ParseOutcomes(tok: seq<byte>)
    ensures ParseToken(tok).Err? ==> ParseToken(tok).status == BadName
    ensures ParseToken(tok).Ok? ==>
      |tok| >= 6 && tok[0] == 0x04 && tok[4] == 0x06 &&
      (tok[1] == 0x01 || tok[1] == 0x02) &&
      ParseToken(tok).value.composite == (tok[1] == 0x02)
  {
  }

  /** A buffer shorter than two octets or with a TOK_ID other than 04 01 and
      04 02 is rejected. */
  lemma TokIdRejected(tok: seq<byte>)
    requires |tok| < 2 || tok[0] != 0x04 || (tok[1] != 0x01 && tok[1] != 0x02)
    ensures ParseToken(tok) == Err(BadName)
  {
  }

  /** After a valid TOK_ID: fewer than two octets of T, a missing or wrong
      OID tag, or an OID length that differs from T less the tag and length
      octets, rejects the token. */
  lemma MechFieldRejected(tok: seq<byte>)
    requires |tok| >= 2 && tok[0] == 0x04 && (tok[1] == 0x01 || tok[1] == 0x02)
    requires || |tok| < 5
             || tok[4] != 0x06
             || (ReadOidLength(tok, 5).Some? &&
                 ReadOidLength(tok, 5).value.value != Be16(tok[2], tok[3]) - 1 - ReadOidLength(tok, 5).value.width)
    ensures ParseToken(tok) == Err(BadName)
  {
  }

  /** With a short-form length octet L, an accepted token has T == L + 2 and
      an OID of exactly L octets. */
  lemma ShortFormBudget(tok: seq<byte>)
    requires ParseToken(tok).Ok? && tok[5] < 0x80
    ensures Be16(tok[2], tok[3]) == tok[5] + 2
    ensures |ParseToken(tok).value.mechOid| == tok[5]
  {
    assert ReadOidLength(tok, 5) == Some(OidLength(tok[5], 1));
  }

  /** Appending octets to an accepted composite token only extends its suffix. */
  lemma CompositeSuffixFree(tok: seq<byte>, more: seq<byte>)
    requires ParseToken(tok).Ok? && ParseToken(tok).value.composite
    ensures ParseToken(tok + more) ==
      Ok(Token(true, ParseToken(tok).value.mechOid, ParseToken(tok).value.rest + more))
  {
    var l := ReadOidLength(tok, 5).value;
    var ext := tok + more;
    assert ext[.. |tok|] == tok;
    if tok[5] >= 0x80 {
      assert ext[6 .. 6 + tok[5]] == tok[6 .. 6 + tok[5]];
    }
    assert ReadOidLength(ext, 5) == Some(l);
    var start := 5 + l.width;
    var t := Be16(tok[2], tok[3]) - 1 - l.width;
    assert ext[start .. start + t] == tok[start .. start + t];
    assert ext[start + t ..] == tok[start + t ..] + more;
  }

  /** The long-form length is misread: X.690 encodes a 128-octet OID with the
      length octets 81 80, which the source takes as 129 length octets
      (0x81), so the token for such an OID never parses back to that OID. */
  lemma LongFormMisread(oid: Oid, name: seq<byte>)
    requires |oid| == 128 && |name| < Two32
    ensures var tok := [0x04, 0x01] + Be16Bytes(3 + |oid|) + [0x06, 0x81, 0x80] + oid + Be32Bytes(|name|) + name;
      ParseToken(tok).Ok? ==> ParseToken(tok).value.mechOid == []
  {
    var tok := [0x04, 0x01] + Be16Bytes(3 + |oid|) + [0x06, 0x81, 0x80] + oid + Be32Bytes(|name|) + name;
    assert tok[2 .. 4] == Be16Bytes(131) && tok[5] == 0x81;
    assert Be16(tok[2], tok[3]) == 131;
    match ReadOidLength(tok, 5)
    case None =>
    case Some(l) =>
      assert l.width == 130;
  }

  /** The token 04 01 00 0B 06 09 2A 86 48 86 F7 12 01 02 02 00 00 00 03 66 6F 6F
      names "foo" under the Kerberos V5 mechanism 1.2.840.113554.1.2.2. */
  lemma KerberosExample(tok: seq<byte>)
    requires tok == [0x04, 0x01, 0x00, 0x0B, 0x06, 0x09, 0x2A, 0x86, 0x48, 0x86, 0xF7, 0x12,
                     0x01, 0x02, 0x02, 0x00, 0x00, 0x00, 0x03, 0x66, 0x6F, 0x6F]
    ensures ParseToken(tok) ==
      Ok(Token(false, [0x2A, 0x86, 0x48, 0x86, 0xF7, 0x12, 0x01, 0x02, 0x02], [0x66, 0x6F, 0x6F]))
  {
    var oid: Oid := [0x2A, 0x86, 0x48, 0x86, 0xF7, 0x12, 0x01, 0x02, 0x02];
    var name: seq<byte> := [0x66, 0x6F, 0x6F];
    assert tok[6 .. 15] == oid && tok[19 ..] == name;
    assert tok[15 .. 19] == [0x00, 0x00, 0x00, 0x03];
    AssemblePlain(tok, oid, name);
    RoundTrip(oid, name);
  }
}
