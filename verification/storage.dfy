/** The shared storage helpers: connection-string parsing, the credential lookup, the fixed
    container name and blob-name sanitising. */
module Storage {
  import opened Outcomes
  import opened Seqs
  import opened Text
  import opened Names

  /** The account name and key a connection string yields. */
  datatype Account = Account(name: string, key: string)

  /** The one container every handler uses. */
  const ContainerName: string := "videos"

  /** The text after the first `=` of a segment, up to the second `=` (or the end). */
  function ValueField(afterFirst: string): string {
    if '=' in afterFirst then afterFirst[..FirstIndex(afterFirst, '=')] else afterFirst
  }

  /** What one `;`-segment contributes, read as `const [k, v] = part.split("=")` followed by
      `if (k && v) map[k.trim()] = v.trim()`: nothing when the untrimmed key or value is empty. */
  function SegmentPair(part: string): Option<(string, string)> {
    var pieces := Split(part, '=');
    if |pieces| >= 2 && pieces[0] != "" && pieces[1] != "" then Some((Trim(pieces[0]), Trim(pieces[1])))
    else None
  }

  /** A segment's key is the text before its first `=` and its value the text between its first
      and second `=`, both trimmed; anything after a second `=` is dropped. */
  lemma SegmentPairFields(part: string)
    ensures '=' !in part ==> SegmentPair(part) == None
    ensures '=' in part ==>
      var i := FirstIndex(part, '=');
      var v := ValueField(part[i + 1..]);
      SegmentPair(part) == if i > 0 && v != "" then Some((Trim(part[..i]), Trim(v))) else None
  {
    if '=' in part {
      var i := FirstIndex(part, '=');
      var rest := part[i + 1..];
      assert Split(part, '=') == [part[..i]] + Split(rest, '=');
      if '=' in rest {
        assert Split(rest, '=')[0] == rest[..FirstIndex(rest, '=')];
      }
    }
  }

  /** What each segment of `conn` contributes, in order. */
  function Entries(conn: string): (es: seq<Option<(string, string)>>)
    ensures |es| == |Split(conn, ';')|
    ensures forall i :: 0 <= i < |es| ==> es[i] == SegmentPair(Split(conn, ';')[i])
  {
    var parts := Split(conn, ';');
    seq(|parts|, i requires 0 <= i < |parts| => SegmentPair(parts[i]))
  }

  /** The object built by the parsing loop, where a later entry overwrites an earlier one. */
  function Assign(es: seq<Option<(string, string)>>): map<string, string> {
    if |es| == 0 then map[]
    else
      var m := Assign(es[..|es| - 1]);
      match es[|es| - 1]
      case Some(kv) => m[kv.0 := kv.1]
      case None => m
  }

  predicate HasKey(e: Option<(string, string)>, key: string) {
    e.Some? && e.value.0 == key
  }

  /** Entry `i` is the last one that contributes a value for `key`. */
  ghost predicate LastPairAt(es: seq<Option<(string, string)>>, i: int, key: string) {
    && 0 <= i < |es|
    && HasKey(es[i], key)
    && forall j :: i < j < |es| ==> !HasKey(es[j], key)
  }

  /** A key is present exactly when some entry contributes it, and its value is the one
      from the last such entry. */
  lemma {:induction false} AssignLastWins(es: seq<Option<(string, string)>>, key: string)
    ensures key in Assign(es) <==> exists i :: LastPairAt(es, i, key)
    ensures forall i :: LastPairAt(es, i, key) ==> Assign(es)[key] == es[i].value.1
  {
    if |es| > 0 {
      var n := |es| - 1;
      var init := es[..n];
      AssignLastWins(init, key);
      if HasKey(es[n], key) {
        assert LastPairAt(es, n, key);
        forall i | LastPairAt(es, i, key)
          ensures i == n
        {
        }
      } else {
        forall i | LastPairAt(init, i, key)
          ensures LastPairAt(es, i, key)
        {
          assert es[i] == init[i];
          forall j | i < j < |es|
            ensures !HasKey(es[j], key)
          {
            if j < n {
              assert es[j] == init[j];
            }
          }
        }
        forall i | LastPairAt(es, i, key)
          ensures LastPairAt(init, i, key)
        {
          assert es[i] == init[i];
          forall j | i < j < |init|
            ensures !HasKey(init[j], key)
          {
            assert es[j] == init[j];
          }
        }
      }
    }
  }

  /** Every value the assignment holds is a value some entry contributed. */
  lemma {:induction false} AssignValuesFrom(es: seq<Option<(string, string)>>, p: string -> bool)
    requires forall i :: 0 <= i < |es| && es[i].Some? ==> p(es[i].value.1)
    ensures forall k :: k in Assign(es) ==> p(Assign(es)[k])
  {
    if |es| > 0 {
      AssignValuesFrom(es[..|es| - 1], p);
    }
  }

  /** A segment's value is trimmed and holds no `=`, nor any character the segment lacks. */
  lemma SegmentValueClean(part: string, c: char)
    requires c !in part
    ensures SegmentPair(part).Some? ==>
      var v := SegmentPair(part).value.1;
      c !in v && '=' !in v && Trim(v) == v
  {
    var pieces := Split(part, '=');
    if |pieces| >= 2 {
      SplitKeepsAbsence(part, '=', c);
      TrimKeepsAbsence(pieces[1], c);
      TrimKeepsAbsence(pieces[1], '=');
      TrimIdempotent(pieces[1]);
    }
  }

  /** Trimming twice is trimming once. */
  lemma TrimIdempotent(s: string)
    ensures Trim(Trim(s)) == Trim(s)
  {
    var r := Trim(s);
    if |r| > 0 {
      assert TrimStart(r) == r;
      assert TrimEnd(r) == r;
    } else {
      assert Trim(r) == "";
    }
  }

  /** A value is clean: trimmed, free of `;` and `=`. */
  predicate CleanValue(v: string) {
    ';' !in v && '=' !in v && Trim(v) == v
  }

  /** Every value the parsing loop stores is clean. */
  lemma AssignedValuesClean(conn: string)
    ensures forall k :: k in Assign(Entries(conn)) ==> CleanValue(Assign(Entries(conn))[k])
  {
    var es := Entries(conn);
    var parts := Split(conn, ';');
    forall i | 0 <= i < |es| && es[i].Some?
      ensures CleanValue(es[i].value.1)
    {
      SegmentValueClean(parts[i], ';');
    }
    AssignValuesFrom(es, CleanValue);
  }

  /** `parseConnectionString`: the last non-empty `AccountName` and `AccountKey` values, or an error. */
  function ParseConnectionString(conn: string): (r: Result<Account>)
    ensures r.Failure? ==> r.error == InvalidConnectionString
    ensures r.Success? ==> r.value.name != "" && r.value.key != ""
  {
    var m := Assign(Entries(conn));
    if "AccountName" in m && m["AccountName"] != "" && "AccountKey" in m && m["AccountKey"] != "" then
      Success(Account(m["AccountName"], m["AccountKey"]))
    else
      Failure(InvalidConnectionString)
  }

  /** The parsed name and key are trimmed and hold neither `;` nor `=`. */
  lemma ParsedValuesClean(conn: string)
    ensures ParseConnectionString(conn).Success? ==>
      CleanValue(ParseConnectionString(conn).value.name) && CleanValue(ParseConnectionString(conn).value.key)
  {
    var m := Assign(Entries(conn));
    AssignedValuesClean(conn);
    var r := ParseConnectionString(conn);
    if r.Success? {
      assert "AccountName" in m && "AccountKey" in m;
      assert r.value == Account(m["AccountName"], m["AccountKey"]);
    }
  }

  /** The value the last segment with key `key` holds, when there is one, and "" otherwise. */
  ghost function LastValue(conn: string, key: string): string {
    var es := Entries(conn);
    if exists i :: LastPairAt(es, i, key) then
      var i :| LastPairAt(es, i, key); es[i].value.1
    else ""
  }

  /** Parsing succeeds exactly when the last `AccountName` and the last `AccountKey` segments hold
      values that are non-empty after trimming, and returns those values. */
  lemma ParseConnectionStringSpec(conn: string)
    ensures ParseConnectionString(conn).Success? <==>
      LastValue(conn, "AccountName") != "" && LastValue(conn, "AccountKey") != ""
    ensures ParseConnectionString(conn).Success? ==>
      ParseConnectionString(conn).value == Account(LastValue(conn, "AccountName"), LastValue(conn, "AccountKey"))
  {
    var m := Assign(Entries(conn));
    LastValueIsAssigned(conn, "AccountName");
    LastValueIsAssigned(conn, "AccountKey");
    assert ParseConnectionString(conn) ==
      if "AccountName" in m && m["AccountName"] != "" && "AccountKey" in m && m["AccountKey"] != "" then
        Success(Account(m["AccountName"], m["AccountKey"]))
      else
        Failure(InvalidConnectionString);
  }

  /** `LastValue` reads the object the parsing loop builds. */
  lemma LastValueIsAssigned(conn: string, key: string)
    ensures LastValue(conn, key) == if key in Assign(Entries(conn)) then Assign(Entries(conn))[key] else ""
  {
    AssignLastWins(Entries(conn), key);
  }

  /** `getSharedKeyCredential`: fails when the connection string is absent or empty, otherwise parses it. */
  function SharedKeyCredential(conn: Option<string>): (r: Result<Account>)
    ensures !IsSet(conn) ==> r == Failure(ConnectionStringMissing)
    ensures IsSet(conn) ==> r == ParseConnectionString(conn.value)
  {
    if !IsSet(conn) then Failure(ConnectionStringMissing) else ParseConnectionString(conn.value)
  }

  /** `getServiceClient`'s own check: the connection string must be present and non-empty. */
  function ServiceClientCheck(conn: Option<string>): (r: Result<()>)
    ensures r.Success? <==> IsSet(conn)
    ensures r.Failure? ==> r.error == ConnectionStringMissing
  {
    if IsSet(conn) then Success(()) else Failure(ConnectionStringMissing)
  }

  /** The credential, read against the last-value reading of the connection string: it exists
      exactly when the string is set and names a non-empty account and key, and carries those. */
  lemma CredentialSpec(conn: Option<string>)
    ensures SharedKeyCredential(conn).Success? <==>
      IsSet(conn) && LastValue(conn.value, "AccountName") != "" && LastValue(conn.value, "AccountKey") != ""
    ensures SharedKeyCredential(conn).Success? ==>
      SharedKeyCredential(conn).value == Account(LastValue(conn.value, "AccountName"), LastValue(conn.value, "AccountKey"))
  {
    if IsSet(conn) {
      ParseConnectionStringSpec(conn.value);
    }
  }

  /** The service client and the credential agree on the configuration: the client check fails
      exactly when the credential fails for a missing connection string, and a credential is only
      ever issued when the client check passes. */
  lemma ServiceClientAgreesWithCredential(conn: Option<string>)
    ensures ServiceClientCheck(conn).Failure? <==> SharedKeyCredential(conn) == Failure(ConnectionStringMissing)
    ensures SharedKeyCredential(conn).Success? ==> ServiceClientCheck(conn).Success?
  {
  }

  /** `sanitizeBlobName`: forbidden characters become `_`, then each white-space run becomes one `_`. */
  function SanitizeBlobName(name: string): (r: string)
    ensures |r| <= |name|
    ensures NoForbidden(r) && NoWhitespace(r)
    ensures Filter(r, IsPlain) == Filter(name, IsPlain)
  {
    var replaced := ReplaceForbidden(name);
    var r := CollapseWhitespace(replaced);
    ReplaceKeepsPlain(name);
    CollapseKeepsPlain(replaced);
    assert forall i :: 0 <= i < |r| ==> r[i] == '_' || r[i] in replaced;
    r
  }

  /** Sanitising a sanitised name changes nothing. */
  lemma SanitizeBlobNameIdempotent(name: string)
    ensures SanitizeBlobName(SanitizeBlobName(name)) == SanitizeBlobName(name)
  {
    var r := SanitizeBlobName(name);
    var replaced := ReplaceForbidden(r);
    assert replaced == r;
    CollapseWithoutWhitespace(r);
  }

  /** A name with no forbidden character and no white space is already sanitised. */
  lemma SanitizeBlobNameFixed(name: string)
    requires NoForbidden(name) && NoWhitespace(name)
    ensures SanitizeBlobName(name) == name
  {
    assert ReplaceForbidden(name) == name;
    CollapseWithoutWhitespace(name);
  }
}
