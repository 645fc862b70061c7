/** Job ids from which a UPID-backed job can be found again after the process that created it is gone. */
module UpidHandle {
  import opened Common
  import Utf8
  import Base64
  import Json

  const UPID_JOB_PREFIX: string := "proxmox_upid_job_"

  datatype Target = Target(
    cluster: Json.JsString, kind: Json.JsString,
    node: Option<Json.JsString>, vmid: Option<int>, guestName: Option<Json.JsString>)

  datatype Payload = Payload(operation: Json.JsString, target: Target, upid: Json.JsString)

  /** What `parseUpidJobId` returns: the target is whatever JSON object stood in the handle. */
  datatype Handle = Handle(operation: Json.JsString, target: Json.Value, upid: Json.JsString)

  function Name(s: string): (r: Json.JsString)
    requires forall i :: 0 <= i < |s| ==> s[i] as int < 128
    ensures |r| == |s| && forall i :: 0 <= i < |s| ==> r[i] as int == s[i] as int
  {
    seq(|s|, i requires 0 <= i < |s| => s[i] as int as Json.CodeUnit)
  }

  function OptionalString(key: string, value: Option<Json.JsString>): seq<Json.Field>
    requires forall i :: 0 <= i < |key| ==> key[i] as int < 128
  {
    if value.None? then [] else [Json.Field(Name(key), Json.Str(value.value))]
  }

  function OptionalInt(key: string, value: Option<int>): seq<Json.Field>
    requires forall i :: 0 <= i < |key| ==> key[i] as int < 128
  {
    if value.None? then [] else [Json.Field(Name(key), Json.Num(value.value))]
  }

  /** `JSON.stringify` leaves out what is undefined. */
  function TargetFields(t: Target): seq<Json.Field> {
    OptionalString("cluster", Some(t.cluster))
    + OptionalString("kind", Some(t.kind))
    + OptionalString("node", t.node)
    + OptionalInt("vmid", t.vmid)
    + OptionalString("guestName", t.guestName)
  }

  function PayloadFields(p: Payload): seq<Json.Field> {
    [Json.Field(Name("v"), Json.Num(1)),
     Json.Field(Name("operation"), Json.Str(p.operation)),
     Json.Field(Name("target"), Json.Obj(TargetFields(p.target))),
     Json.Field(Name("upid"), Json.Str(p.upid))]
  }

  function MakeUpidJobId(p: Payload): string {
    UPID_JOB_PREFIX + Base64.EncodeUrl(Utf8.Encode(Json.Print(Json.Obj(PayloadFields(p)))))
  }

  /** A property of a parsed object; of repeated keys the last one counts. */
  function Get(v: Json.Value, key: Json.JsString): Option<Json.Value>
  {
    if v.Obj? then Lookup(v.fields, key) else None
  }

  function Lookup(fields: seq<Json.Field>, key: Json.JsString): Option<Json.Value> {
    if fields == [] then None
    else if fields[|fields| - 1].key == key then Some(fields[|fields| - 1].value)
    else Lookup(fields[..|fields| - 1], key)
  }

  predicate IsString(v: Option<Json.Value>) {
    v.Some? && v.value.Str?
  }

  function ParseUpidJobId(jobId: string): Option<Handle> {
    if !Json.Begins(jobId, UPID_JOB_PREFIX) then None
    else
      var encoded := jobId[|UPID_JOB_PREFIX|..];
      if encoded == "" then None
      else
        var parsed := Json.Parse(Utf8.Decode(Base64.Decode(encoded)));
        if parsed.None? then None else FromJson(parsed.value)
  }

  /** The checks on the parsed object. */
  function FromJson(v: Json.Value): Option<Handle> {
    var operation, target, upid := Get(v, Name("operation")), Get(v, Name("target")), Get(v, Name("upid"));
    if Get(v, Name("v")) != Some(Json.Num(1)) || !IsString(operation) || target.None? then None
    else if !IsString(Get(target.value, Name("cluster"))) || !IsString(Get(target.value, Name("kind"))) then None
    else if !IsString(upid) then None
    else Some(Handle(operation.value.s, target.value, upid.value.s))
  }

  /** The payload a handle stands for. */
  function HandleOf(p: Payload): Handle {
    Handle(p.operation, Json.Obj(TargetFields(p.target)), p.upid)
  }

  lemma NamesDiffer(a: string, b: string)
    requires Ascii(a) && Ascii(b)
    ensures Name(a) == Name(b) <==> a == b
  {
    if Name(a) == Name(b) {
      assert |a| == |b|;
      forall i | 0 <= i < |a| ensures a[i] == b[i] {
        assert Name(a)[i] == Name(b)[i];
      }
    }
  }

  /** Looking a key up past a last field with another key. */
  lemma LookupPast(fields: seq<Json.Field>, last: seq<Json.Field>, key: Json.JsString)
    requires |last| <= 1 && (last != [] ==> last[0].key != key)
    ensures Lookup(fields + last, key) == Lookup(fields, key)
  {
    if last != [] {
      assert (fields + last)[..|fields|] == fields;
    } else {
      assert fields + last == fields;
    }
  }

  lemma LookupLast(fields: seq<Json.Field>, last: Json.Field)
    ensures Lookup(fields + [last], last.key) == Some(last.value)
  {
  }

  predicate Ascii(s: string) {
    forall i :: 0 <= i < |s| ==> s[i] as int < 128
  }

  lemma LookupOptional(fields: seq<Json.Field>, key: string, last: seq<Json.Field>, k: string)
    requires Ascii(key) && Ascii(k) && |last| <= 1 && (last != [] ==> last[0].key == Name(key))
    ensures Lookup(fields + last, Name(k))
            == if k == key && last != [] then Some(last[0].value) else Lookup(fields, Name(k))
  {
    NamesDiffer(key, k);
    if k == key && last != [] {
      LookupLast(fields, last[0]);
      assert last == [last[0]];
    } else {
      LookupPast(fields, last, Name(k));
    }
  }

  /** Every property of a printed target is found again under its name, and an absent one is not. */
  lemma TargetLookup(t: Target)
    ensures Lookup(TargetFields(t), Name("cluster")) == Some(Json.Str(t.cluster))
    ensures Lookup(TargetFields(t), Name("kind")) == Some(Json.Str(t.kind))
    ensures Lookup(TargetFields(t), Name("node")) == if t.node.Some? then Some(Json.Str(t.node.value)) else None
    ensures Lookup(TargetFields(t), Name("vmid")) == if t.vmid.Some? then Some(Json.Num(t.vmid.value)) else None
    ensures Lookup(TargetFields(t), Name("guestName"))
            == if t.guestName.Some? then Some(Json.Str(t.guestName.value)) else None
  {
    KeysDiffer();
    hide Lookup, TargetFields, Name;
    TargetLookupAny(t, "cluster");
    TargetLookupAny(t, "kind");
    TargetLookupAny(t, "node");
    TargetLookupAny(t, "vmid");
    TargetLookupAny(t, "guestName");
  }

  lemma KeysDiffer()
    ensures "node" != "kind" && "vmid" != "kind" && "vmid" != "node"
    ensures "cluster" != "kind" && "cluster" != "node" && "cluster" != "vmid" && "cluster" != "guestName"
    ensures "guestName" != "kind" && "guestName" != "node" && "guestName" != "vmid"
  {
    assert "node"[0] != "kind"[0] && "vmid"[0] != "kind"[0] && "vmid"[0] != "node"[0];
  }

  lemma TargetLookupAny(t: Target, k: string)
    requires Ascii(k)
    ensures Lookup(TargetFields(t), Name(k)) ==
            if k == "guestName" && t.guestName.Some? then Some(Json.Str(t.guestName.value))
            else if k == "vmid" && t.vmid.Some? then Some(Json.Num(t.vmid.value))
            else if k == "node" && t.node.Some? then Some(Json.Str(t.node.value))
            else if k == "kind" then Some(Json.Str(t.kind))
            else if k == "cluster" then Some(Json.Str(t.cluster))
            else None
  {
    var cluster, kind := OptionalString("cluster", Some(t.cluster)), OptionalString("kind", Some(t.kind));
    var node, vmid := OptionalString("node", t.node), OptionalInt("vmid", t.vmid);
    var guestName := OptionalString("guestName", t.guestName);
    assert [] + cluster == cluster;
    LookupOptional([], "cluster", cluster, k);
    hide Lookup, Name;
    LookupOptional(cluster, "kind", kind, k);
    LookupOptional(cluster + kind, "node", node, k);
    LookupOptional(cluster + kind + node, "vmid", vmid, k);
    LookupOptional(cluster + kind + node + vmid, "guestName", guestName, k);
  }

  lemma PayloadLookup(p: Payload)
    ensures Lookup(PayloadFields(p), Name("v")) == Some(Json.Num(1))
    ensures Lookup(PayloadFields(p), Name("operation")) == Some(Json.Str(p.operation))
    ensures Lookup(PayloadFields(p), Name("target")) == Some(Json.Obj(TargetFields(p.target)))
    ensures Lookup(PayloadFields(p), Name("upid")) == Some(Json.Str(p.upid))
  {
    hide TargetFields;
    var v := Json.Field(Name("v"), Json.Num(1));
    var operation := Json.Field(Name("operation"), Json.Str(p.operation));
    var target := Json.Field(Name("target"), Json.Obj(TargetFields(p.target)));
    var upid := Json.Field(Name("upid"), Json.Str(p.upid));
    assert |v.key| == 1 && |operation.key| == 9 && |target.key| == 6 && |upid.key| == 4;
    assert PayloadFields(p) == [v] + [operation] + [target] + [upid];
    LookupLast([v] + [operation] + [target], upid);
    LookupPast([v] + [operation] + [target], [upid], target.key);
    LookupLast([v] + [operation], target);
    LookupPast([v] + [operation] + [target], [upid], operation.key);
    LookupPast([v] + [operation], [target], operation.key);
    LookupLast([v], operation);
    LookupPast([v] + [operation] + [target], [upid], v.key);
    LookupPast([v] + [operation], [target], v.key);
    LookupPast([v], [operation], v.key);
    assert [v][0] == v;
  }

  lemma FromJsonOfPayload(p: Payload)
    ensures FromJson(Json.Obj(PayloadFields(p))) == Some(HandleOf(p))
  {
    PayloadLookup(p);
    TargetLookup(p.target);
    hide Lookup, PayloadFields, TargetFields;
  }

  /** An encoding is empty only when there is nothing to encode. */
  lemma EncodedNonEmpty(text: string)
    requires text != ""
    ensures Base64.EncodeUrl(Utf8.Encode(text)) != ""
  {
    assert |Utf8.Encode(text)| >= 1;
    assert |Base64.Pack(Utf8.Encode(text))| >= 2;
  }

  /** An id is read as the JSON text it encodes. */
  lemma IdOfText(text: string)
    requires text != ""
    ensures ParseUpidJobId("proxmox_upid_job_" + Base64.EncodeUrl(Utf8.Encode(text)))
            == if Json.Parse(text).None? then None else FromJson(Json.Parse(text).value)
  {
    var encoded := Base64.EncodeUrl(Utf8.Encode(text));
    EncodedNonEmpty(text);
    Base64.DecodeEncode(Utf8.Encode(text));
    Utf8.DecodeEncode(text);
    hide Json.Parse, FromJson, Base64.EncodeUrl, Base64.Decode, Utf8.Encode, Utf8.Decode;
    var jobId := "proxmox_upid_job_" + encoded;
    assert |"proxmox_upid_job_"| == 17;
    assert jobId[..17] == "proxmox_upid_job_" && jobId[17..] == encoded;
  }

  /**
   Parsing a made id returns exactly the payload it was made from: every operation, UPID and target,
   with or without the optional fields, whatever code units the strings consist of.
   */
  lemma HandleRoundTrip(p: Payload)
    ensures ParseUpidJobId(MakeUpidJobId(p)) == Some(HandleOf(p))
  {
    var value := Json.Obj(PayloadFields(p));
    Json.PrintStart(value);
    IdOfText(Json.Print(value));
    Json.ParsePrint(value);
    FromJsonOfPayload(p);
    hide Json.Print, Json.Parse, FromJson, ParseUpidJobId, PayloadFields;
  }

  /** `v` is an object whose last property called `key` has that value. */
  ghost predicate Says(v: Json.Value, key: string, value: Json.Value)
    requires Ascii(key)
  {
    v.Obj? && exists i :: LastField(v.fields, i, Name(key), value)
  }

  predicate LastField(fields: seq<Json.Field>, i: int, key: Json.JsString, value: Json.Value) {
    && 0 <= i < |fields| && fields[i] == Json.Field(key, value)
    && forall j :: i < j < |fields| ==> fields[j].key != key
  }

  lemma {:induction false} LookupMeaning(fields: seq<Json.Field>, key: Json.JsString, value: Json.Value)
    ensures Lookup(fields, key) == Some(value) <==> exists i :: LastField(fields, i, key, value)
    decreases |fields|
  {
    if fields != [] {
      var last := |fields| - 1;
      var front := fields[..last];
      if fields[last].key == key {
        assert LastField(fields, last, key, fields[last].value);
      } else {
        LookupMeaning(front, key, value);
        if i :| LastField(front, i, key, value) {
          assert LastField(fields, i, key, value);
        }
        if i :| LastField(fields, i, key, value) {
          assert LastField(front, i, key, value);
        }
      }
    }
  }

  lemma GetMeaning(v: Json.Value, key: string, value: Json.Value)
    requires Ascii(key)
    ensures Get(v, Name(key)) == Some(value) <==> Says(v, key, value)
  {
    if v.Obj? {
      LookupMeaning(v.fields, Name(key), value);
    }
  }

  ghost predicate SaysText(v: Json.Value, key: string)
    requires Ascii(key)
  {
    exists s :: Says(v, key, Json.Str(s))
  }

  lemma GetText(v: Json.Value, key: string)
    requires Ascii(key)
    ensures IsString(Get(v, Name(key))) <==> SaysText(v, key)
  {
    if IsString(Get(v, Name(key))) {
      GetMeaning(v, key, Get(v, Name(key)).value);
      assert Says(v, key, Json.Str(Get(v, Name(key)).value.s));
    }
    if s :| Says(v, key, Json.Str(s)) {
      GetMeaning(v, key, Json.Str(s));
    }
  }

  /** The object says version 1, the operation, a target with a cluster and a kind, and the UPID of the handle. */
  ghost predicate Carries(v: Json.Value, h: Handle) {
    && Says(v, "v", Json.Num(1))
    && Says(v, "operation", Json.Str(h.operation))
    && Says(v, "target", h.target) && SaysText(h.target, "cluster") && SaysText(h.target, "kind")
    && Says(v, "upid", Json.Str(h.upid))
  }

  lemma FromJsonMeaning(v: Json.Value, h: Handle)
    ensures FromJson(v) == Some(h) <==> Carries(v, h)
  {
    GetMeaning(v, "v", Json.Num(1));
    GetMeaning(v, "operation", Json.Str(h.operation));
    GetMeaning(v, "target", h.target);
    GetMeaning(v, "upid", Json.Str(h.upid));
    GetText(h.target, "cluster");
    GetText(h.target, "kind");
    hide Get, Says, SaysText, Name;
  }

  /**
   Which ids are handles: the id made of any JSON value at all parses if and only if that value is an
   object with these properties, the last of each name counting, and then to exactly them. Anything but
   white space after the value, or another prefix, makes it no handle.
   */
  lemma HandleMeaning(v: Json.Value, h: Handle, rest: string)
    ensures ParseUpidJobId("proxmox_upid_job_" + Base64.EncodeUrl(Utf8.Encode(Json.Print(v)))) == Some(h) <==> Carries(v, h)
    ensures !v.Num? && rest != "" && rest[0] != ' ' && rest[0] != '\t' && rest[0] != '\n' && rest[0] != '\r' ==>
              ParseUpidJobId("proxmox_upid_job_" + Base64.EncodeUrl(Utf8.Encode(Json.Print(v) + rest))) == None
  {
    Json.PrintStart(v);
    IdOfText(Json.Print(v));
    IdOfText(Json.Print(v) + rest);
    Json.ParsePrint(v);
    FromJsonMeaning(v, h);
    if !v.Num? && rest != "" && rest[0] != ' ' && rest[0] != '\t' && rest[0] != '\n' && rest[0] != '\r' {
      Json.NothingMayFollow(v, rest);
    }
    hide Json.Print, Json.Parse, FromJson, Carries, ParseUpidJobId;
  }

  /** Without the prefix, or with nothing after it, an id is no handle. */
  lemma PrefixNeeded(jobId: string)
    requires forall encoded :: encoded != "" ==> jobId != "proxmox_upid_job_" + encoded
    ensures ParseUpidJobId(jobId) == None
  {
    if Json.Begins(jobId, UPID_JOB_PREFIX) {
      var encoded := jobId[|UPID_JOB_PREFIX|..];
      assert jobId == "proxmox_upid_job_" + encoded;
    }
  }

  /** The fields of a target determine the target. */
  lemma TargetFieldsInjective(a: Target, b: Target)
    requires TargetFields(a) == TargetFields(b)
    ensures a == b
  {
    TargetLookup(a);
    TargetLookup(b);
  }

  /** Distinct payloads never share an id. */
  lemma IdsAreDistinct(a: Payload, b: Payload)
    requires MakeUpidJobId(a) == MakeUpidJobId(b)
    ensures a == b
  {
    HandleRoundTrip(a);
    HandleRoundTrip(b);
    TargetFieldsInjective(a.target, b.target);
  }

  /** The id of a process-local job, `job_` and a UUID, is never taken for a handle. */
  lemma LocalIdIsNoHandle(uuid: string)
    ensures ParseUpidJobId("job_" + uuid) == None
  {
    var jobId := "job_" + uuid;
    assert jobId[0] == 'j';
    assert |jobId| >= |UPID_JOB_PREFIX| ==> jobId[..|UPID_JOB_PREFIX|][0] == 'j';
  }
}
