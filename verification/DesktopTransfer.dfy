/** The transfer format between the Mac gateway and the desktop node: the gateway's
    `prepare_desktop_payload` and `unpack_desktop_artifact`, the node's
    `materialize_attachments` and `pack_result_artifact`.

    Base64 (section 4 of RFC 4648) and SHA-256 are parameters; so are the file systems,
    Python's `str()` of a JSON value that is not a string and its `int()` of any, and the
    file-name rules. */
module DesktopTransfer {
  import opened Wrappers
  import Decimal

  type Bytes = seq<bv8>

  datatype Json =
    | Null
    | Bool(flag: bool)
    | Num(number: int)
    | Float(value: real)
    | Str(text: string)
    | List(items: seq<Json>)
    | Dict(entries: map<string, Json>)
  {
    /** Python truth. */
    predicate Truthy() {
      match this
      case Null => false
      case Bool(b) => b
      case Num(n) => n != 0
      case Float(x) => x != 0.0
      case Str(s) => s != ""
      case List(items) => items != []
      case Dict(entries) => entries != map[]
    }
  }

  type Payload = map<string, Json>

  function Get(payload: Payload, key: string): Json {
    if key in payload then payload[key] else Null
  }

  datatype Codec = Codec(
    encode: Bytes -> string,
    decode: string -> Option<Bytes>,
    sha256: Bytes -> string,
    suffix: string -> string,
    text: Json -> string,
    integer: Json -> Option<int>)
  {
    /** Decoding undoes encoding, and an integer is itself. */
    ghost predicate Lawful() {
      (forall b :: decode(encode(b)) == Some(b)) && forall n :: integer(Num(n)) == Some(n)
    }
  }

  /** A file the gateway can read; `local` resolves a payload value to one. */
  datatype File = File(name: string, bytes: Bytes)

  type Local = Json -> Option<File>

  const MAX_INDEX := 15

  /** An attachment field of a capability, and whether it takes a list. */
  datatype Slot = Slot(name: string, multiple: bool)

  /** Both programs hold this table: the attachment fields of a capability, in order. */
  function AttachmentFields(capability: string): seq<Slot> {
    if capability == "vision.analyze" || capability == "image.edit" then [Slot("imagePath", false), Slot("imagePaths", true)]
    else if capability == "video.analyze" then [Slot("videoPath", false)]
    else if capability == "audio.transcribe" then [Slot("audioPath", false)]
    else []
  }

  datatype Attachment = Attachment(
    field: string,
    index: Option<int>,
    name: string,
    size: nat,
    sha256: string,
    dataBase64: string)

  // ----- The gateway's side -----

  /** One value to send: its field, its position in the field and whether the field is a list. */
  datatype Item = Item(field: string, multiple: bool, index: nat, value: Json)

  function FieldValues(payload: Payload, field: string, multiple: bool): seq<Json> {
    var raw := Get(payload, field);
    if multiple && raw.List? then raw.items else if raw.Truthy() then [raw] else []
  }

  function ItemsOf(field: string, multiple: bool, values: seq<Json>): seq<Item> {
    seq(|values|, i requires 0 <= i < |values| => Item(field, multiple, i, values[i]))
  }

  function Items(fields: seq<Slot>, payload: Payload): seq<Item> {
    if fields == [] then []
    else
      var Slot(field, multiple) := fields[0];
      ItemsOf(field, multiple, FieldValues(payload, field, multiple)) + Items(fields[1..], payload)
  }

  /** `require_local_file` */
  function Require(local: Local, value: Json): Option<File> {
    if value.Truthy() then local(value) else None
  }

  function AttachmentOf(codec: Codec, item: Item, file: File): Attachment {
    Attachment(item.field, if item.multiple then Some(item.index) else None, file.name, |file.bytes|,
               codec.sha256(file.bytes), codec.encode(file.bytes))
  }

  datatype SendError = NoSuchFile(value: Json) | TooMuchToSend

  function Total(attachments: seq<Attachment>): nat {
    if attachments == [] then 0
    else Total(attachments[..|attachments| - 1]) + attachments[|attachments| - 1].size
  }

  /** Attach the items one by one after `before`, up to the first that is missing or one
      too many. */
  function Attach(codec: Codec, local: Local, items: seq<Item>, before: seq<Attachment>, maxBytes: nat)
    : Result<seq<Attachment>, SendError>
  {
    if items == [] then Ok(before)
    else
      match Require(local, items[0].value)
      case None => Err(NoSuchFile(items[0].value))
      case Some(file) =>
        if Total(before) + |file.bytes| > maxBytes then Err(TooMuchToSend)
        else Attach(codec, local, items[1..], before + [AttachmentOf(codec, items[0], file)], maxBytes)
  }

  /** The fields that travel as attachments. */
  function Popped(fields: seq<Slot>, payload: Payload): set<string> {
    if fields == [] then {}
    else
      var Slot(field, multiple) := fields[0];
      (if FieldValues(payload, field, multiple) == [] then {} else {field}) + Popped(fields[1..], payload)
  }

  lemma NextField(fields: seq<Slot>, n: nat, payload: Payload, remote: Payload)
    requires n < |fields|
    ensures var values := FieldValues(payload, fields[n].name, fields[n].multiple);
            && Items(fields[n..], payload) == ItemsOf(fields[n].name, fields[n].multiple, values) + Items(fields[n + 1..], payload)
            && (values == [] ==> Items(fields[n..], payload) == Items(fields[n + 1..], payload))
            && remote - Popped(fields[n..], payload) ==
                 (if values == [] then remote else remote - {fields[n].name}) - Popped(fields[n + 1..], payload)
  {
    var field, rest := fields[n], Items(fields[n + 1..], payload);
    assert fields[n..][1..] == fields[n + 1..];
    assert ItemsOf(field.name, field.multiple, []) + rest == rest;
    assert forall p: set<string> :: {} + p == p;
    assert forall p: set<string> :: remote - {field.name} - p == remote - ({field.name} + p);
  }

  function Prepared(codec: Codec, local: Local, fields: seq<Slot>, payload: Payload, maxBytes: nat)
    : Result<(Payload, seq<Attachment>), SendError>
  {
    match Attach(codec, local, Items(fields, payload), [], maxBytes)
    case Err(e) => Err(e)
    case Ok(attachments) => Ok((payload - Popped(fields, payload), attachments))
  }

  lemma TotalGrows(attachments: seq<Attachment>, a: Attachment)
    ensures Total(attachments + [a]) == Total(attachments) + a.size
  {
    assert (attachments + [a])[..|attachments|] == attachments;
  }

  method PrepareDesktopPayload(codec: Codec, local: Local, capability: string, payload: Payload, maxBytes: nat)
    returns (r: Result<(Payload, seq<Attachment>), SendError>)
    ensures r == Prepared(codec, local, AttachmentFields(capability), payload, maxBytes)
    ensures SendsWhatIsThere(codec, local, AttachmentFields(capability), payload, maxBytes, r)
  {
    var fields := AttachmentFields(capability);
    PreparedLaw(codec, local, fields, payload, maxBytes);
    var remoteInput := payload;
    var attachments: seq<Attachment> := [];
    var total: nat := 0;
    for n := 0 to |fields|
      invariant remoteInput - Popped(fields[n..], payload) == payload - Popped(fields, payload)
      invariant Attach(codec, local, Items(fields[n..], payload), attachments, maxBytes) ==
                Attach(codec, local, Items(fields, payload), [], maxBytes)
      invariant total == Total(attachments)
    {
      var Slot(field, multiple) := fields[n];
      NextField(fields, n, payload, remoteInput);
      var raw := Get(payload, field);
      var values := if multiple && raw.List? then raw.items else if raw.Truthy() then [raw] else [];
      if values == [] {
        continue;
      }
      remoteInput := remoteInput - {field};
      var attached;
      attached, total := AttachField(codec, local, field, multiple, values, attachments, total, maxBytes, Items(fields[n + 1..], payload));
      if attached.Err? {
        return Err(attached.error);
      }
      attachments := attached.value;
    }
    assert remoteInput - {} == remoteInput;
    r := Ok((remoteInput, attachments));
  }

  /** The inner loop, over the values of one field. */
  method AttachField(codec: Codec, local: Local, field: string, multiple: bool, values: seq<Json>,
                     attachments0: seq<Attachment>, total0: nat, maxBytes: nat, ghost rest: seq<Item>)
    returns (r: Result<seq<Attachment>, SendError>, total: nat)
    requires total0 == Total(attachments0)
    ensures Attach(codec, local, ItemsOf(field, multiple, values) + rest, attachments0, maxBytes) ==
              if r.Ok? then Attach(codec, local, rest, r.value, maxBytes) else r
    ensures r.Ok? ==> total == Total(r.value)
  {
    ghost var these := ItemsOf(field, multiple, values);
    var attachments := attachments0;
    total := total0;
    assert these[0..] + rest == these + rest;
    for index := 0 to |values|
      invariant Attach(codec, local, these[index..] + rest, attachments, maxBytes) ==
                Attach(codec, local, these + rest, attachments0, maxBytes)
      invariant total == Total(attachments)
    {
      assert (these[index..] + rest)[1..] == these[index + 1..] + rest;
      var file := Require(local, values[index]);
      if file.None? {
        return Err(NoSuchFile(values[index])), total;
      }
      total := total + |file.value.bytes|;
      if total > maxBytes {
        return Err(TooMuchToSend), total;
      }
      var attachment := AttachmentOf(codec, Item(field, multiple, index, values[index]), file.value);
      TotalGrows(attachments, attachment);
      attachments := attachments + [attachment];
    }
    assert these[|values|..] + rest == rest;
    r := Ok(attachments);
  }

  // ----- The node's side -----

  datatype Written = Written(path: string, bytes: Bytes)

  datatype ReceiveError =
    | InvalidField | InvalidIndex | UnexpectedIndex | InvalidEncoding | TooMuchReceived | ChecksumMismatch

  /** Whether the field is allowed, and if so whether it takes a list. */
  function Allowed(fields: seq<Slot>, field: string): Option<bool> {
    if fields == [] then None
    else if fields[0].name == field then Some(fields[0].multiple)
    else Allowed(fields[1..], field)
  }

  /** `input_root / f"{position:02d}-{sha[:16]}{suffix}"` */
  function InputPath(codec: Codec, root: string, position: nat, name: string, bytes: Bytes): string {
    root + "/" + (Decimal.Pad(position, 2) + "-" +
    (Take(codec.sha256(bytes), 16) + Take(codec.suffix(if name == "" then "file.bin" else name), 16)))
  }

  /** A list made long enough to hold position `index`. */
  function Extended(items: seq<Json>, length: nat): seq<Json>
    ensures |Extended(items, length)| == if |items| < length then length else |items|
    ensures items <= Extended(items, length)
    decreases length - |items|
  {
    if |items| >= length then items else Extended(items + [Null], length)
  }

  function Place(payload: Payload, field: string, multiple: bool, index: nat, path: string): Payload {
    if multiple then
      var current := Get(payload, field);
      var items := Extended(if current.List? then current.items else [], index + 1);
      payload[field := List(items[index := Str(path)])]
    else payload[field := Str(path)]
  }

  datatype Inbox = Inbox(result: Result<Payload, ReceiveError>, total: nat, files: seq<Written>)

  function ReceiveNext(codec: Codec, fields: seq<Slot>, root: string, maxBytes: nat, a: Attachment, s: Inbox): Inbox
    requires s.result.Ok?
  {
    var allowed := Allowed(fields, a.field);
    if allowed.None? then s.(result := Err(InvalidField))
    else if allowed.value && (a.index.None? || a.index.value < 0 || a.index.value > MAX_INDEX) then s.(result := Err(InvalidIndex))
    else if !allowed.value && a.index.Some? then s.(result := Err(UnexpectedIndex))
    else
      match codec.decode(a.dataBase64)
      case None => s.(result := Err(InvalidEncoding))
      case Some(data) =>
        var total := s.total + |data|;
        if total > maxBytes then s.(result := Err(TooMuchReceived), total := total)
        else if a.sha256 != codec.sha256(data) then s.(result := Err(ChecksumMismatch), total := total)
        else
          var path := InputPath(codec, root, |s.files|, a.name, data);
          Inbox(Ok(Place(s.result.value, a.field, allowed.value, if allowed.value then a.index.value else 0, path)),
                total, s.files + [Written(path, data)])
  }

  /** The remaining attachments, taken in order until one is rejected. */
  function Received(codec: Codec, fields: seq<Slot>, attachments: seq<Attachment>, s: Inbox, root: string, maxBytes: nat): Inbox {
    if attachments == [] || s.result.Err? then s
    else Received(codec, fields, attachments[1..], ReceiveNext(codec, fields, root, maxBytes, attachments[0], s), root, maxBytes)
  }

  method MaterializeAttachments(codec: Codec, capability: string, payload: Payload, attachments: seq<Attachment>, root: string, maxBytes: nat)
    returns (r: Result<Payload, ReceiveError>, files: seq<Written>)
    ensures var s := Received(codec, AttachmentFields(capability), attachments, Inbox(Ok(payload), 0, []), root, maxBytes);
            r == s.result && files == s.files
  {
    var fields := AttachmentFields(capability);
    var s := Inbox(Ok(payload), 0, []);
    for position := 0 to |attachments|
      invariant s.result.Ok? && |s.files| == position
      invariant Received(codec, fields, attachments[position..], s, root, maxBytes) ==
                Received(codec, fields, attachments, Inbox(Ok(payload), 0, []), root, maxBytes)
    {
      assert attachments[position..][1..] == attachments[position + 1..];
      s := ReceiveOne(codec, fields, root, maxBytes, attachments[position], s, position);
      if s.result.Err? {
        return s.result, s.files;
      }
    }
    r, files := s.result, s.files;
  }

  /** The loop body: validate, decode, count, compare the digest, write, place. */
  method ReceiveOne(codec: Codec, fields: seq<Slot>, root: string, maxBytes: nat, a: Attachment, s0: Inbox, position: nat)
    returns (s: Inbox)
    requires s0.result.Ok? && position == |s0.files|
    ensures s == ReceiveNext(codec, fields, root, maxBytes, a, s0)
    ensures s.result.Ok? ==> |s.files| == position + 1
  {
    s := s0;
    var allowed := Allowed(fields, a.field);
    if allowed.None? {
      return s.(result := Err(InvalidField));
    }
    var multiple := allowed.value;
    if multiple {
      if a.index.None? || a.index.value < 0 || a.index.value > MAX_INDEX {
        return s.(result := Err(InvalidIndex));
      }
    } else if a.index.Some? {
      return s.(result := Err(UnexpectedIndex));
    }
    var decoded := codec.decode(a.dataBase64);
    if decoded.None? {
      return s.(result := Err(InvalidEncoding));
    }
    var data := decoded.value;
    s := s.(total := s.total + |data|);
    if s.total > maxBytes {
      return s.(result := Err(TooMuchReceived));
    }
    if a.sha256 != codec.sha256(data) {
      return s.(result := Err(ChecksumMismatch));
    }
    var path := InputPath(codec, root, position, a.name, data);
    s := s.(files := s.files + [Written(path, data)]);
    if multiple {
      var result := PlaceInList(s.result.value, a.field, a.index.value, path);
      s := s.(result := Ok(result));
    } else {
      s := s.(result := Ok(s.result.value[a.field := Str(path)]));
    }
  }

  /** `setdefault`, then grow the list until it has the position, then fill it. */
  method PlaceInList(payload: Payload, field: string, index: nat, path: string) returns (r: Payload)
    ensures r == Place(payload, field, true, index, path)
  {
    var current := Get(payload, field);
    var values := if current.List? then current.items else [];
    ghost var values0 := values;
    while |values| <= index
      invariant Extended(values, index + 1) == Extended(values0, index + 1)
      decreases index + 1 - |values|
    {
      values := values + [Null];
    }
    r := payload[field := List(values[index := Str(path)])];
  }

  // ----- What is written, for every request -----

  function BytesIn(files: seq<Written>): nat {
    if files == [] then 0 else BytesIn(files[..|files| - 1]) + |files[|files| - 1].bytes|
  }

  /** File `i` is named after position `i`. */
  ghost predicate Numbered(codec: Codec, root: string, files: seq<Written>) {
    forall i | 0 <= i < |files| :: NamedAt(codec, root, i, files[i])
  }

  ghost predicate NamedAt(codec: Codec, root: string, i: nat, file: Written) {
    exists name :: file.path == InputPath(codec, root, i, name, file.bytes)
  }

  /** An accepted attachment adds exactly one file, within the limit. */
  lemma NextFile(codec: Codec, fields: seq<Slot>, a: Attachment, s: Inbox, root: string, maxBytes: nat)
    returns (w: Written)
    requires s.result.Ok?
    ensures var s' := ReceiveNext(codec, fields, root, maxBytes, a, s);
            if s'.result.Ok? then
              && s'.files == s.files + [w]
              && s'.total == s.total + |w.bytes| <= maxBytes
              && NamedAt(codec, root, |s.files|, w)
            else s'.files == s.files
  {
    var decoded := codec.decode(a.dataBase64);
    var data := if decoded.Some? then decoded.value else [];
    w := Written(InputPath(codec, root, |s.files|, a.name, data), data);
    assert NamedAt(codec, root, |s.files|, w);
  }

  lemma {:induction false} NumberedGrows(codec: Codec, root: string, files: seq<Written>, w: Written)
    requires Numbered(codec, root, files) && NamedAt(codec, root, |files|, w)
    ensures Numbered(codec, root, files + [w]) && BytesIn(files + [w]) == BytesIn(files) + |w.bytes|
  {
    assert (files + [w])[..|files|] == files;
  }

  ghost predicate Within(codec: Codec, root: string, files: seq<Written>, maxBytes: nat) {
    BytesIn(files) <= maxBytes && Numbered(codec, root, files)
  }

  lemma NextWithin(codec: Codec, fields: seq<Slot>, a: Attachment, s: Inbox, root: string, maxBytes: nat)
    requires s.result.Ok? && BytesIn(s.files) == s.total && Within(codec, root, s.files, maxBytes)
    ensures var s' := ReceiveNext(codec, fields, root, maxBytes, a, s);
            Within(codec, root, s'.files, maxBytes) && (s'.result.Ok? ==> BytesIn(s'.files) == s'.total)
  {
    var w := NextFile(codec, fields, a, s, root, maxBytes);
    if ReceiveNext(codec, fields, root, maxBytes, a, s).result.Ok? {
      NumberedGrows(codec, root, s.files, w);
    }
  }

  lemma {:induction false} WrittenWithinLimit(codec: Codec, fields: seq<Slot>, attachments: seq<Attachment>, s: Inbox, root: string, maxBytes: nat)
    requires s.result.Ok? && BytesIn(s.files) == s.total && Within(codec, root, s.files, maxBytes)
    ensures Within(codec, root, Received(codec, fields, attachments, s, root, maxBytes).files, maxBytes)
  {
    if attachments != [] {
      NextWithin(codec, fields, attachments[0], s, root, maxBytes);
      var s1 := ReceiveNext(codec, fields, root, maxBytes, attachments[0], s);
      if s1.result.Ok? {
        WrittenWithinLimit(codec, fields, attachments[1..], s1, root, maxBytes);
      }
    }
  }

  lemma NumberedPathsDiffer(codec: Codec, root: string, files: seq<Written>, i: nat, j: nat)
    requires Numbered(codec, root, files) && i < j < |files|
    ensures files[i].path != files[j].path
  {
    assert NamedAt(codec, root, i, files[i]) && NamedAt(codec, root, j, files[j]);
    var x :| files[i].path == InputPath(codec, root, i, x, files[i].bytes);
    var y :| files[j].path == InputPath(codec, root, j, y, files[j].bytes);
    Decimal.PadValue(i, 2);
    Decimal.PadValue(j, 2);
    var a, b := Decimal.Pad(i, 2), Decimal.Pad(j, 2);
    var u := Take(codec.sha256(files[i].bytes), 16) + Take(codec.suffix(if x == "" then "file.bin" else x), 16);
    var v := Take(codec.sha256(files[j].bytes), 16) + Take(codec.suffix(if y == "" then "file.bin" else y), 16);
    if files[i].path == files[j].path {
      var head := root + "/";
      assert (head + (a + "-" + u))[|head|..] == a + "-" + u;
      assert (head + (b + "-" + v))[|head|..] == b + "-" + v;
      Decimal.PrefixInjective(a, b, '-', u, v);
      assert false;
    }
  }

  lemma PathsDiffer(codec: Codec, fields: seq<Slot>, payload: Payload, attachments: seq<Attachment>, root: string, maxBytes: nat)
    ensures var files := Received(codec, fields, attachments, Inbox(Ok(payload), 0, []), root, maxBytes).files;
            BytesIn(files) <= maxBytes && forall i, j | 0 <= i < j < |files| :: files[i].path != files[j].path
  {
    WrittenWithinLimit(codec, fields, attachments, Inbox(Ok(payload), 0, []), root, maxBytes);
    var files := Received(codec, fields, attachments, Inbox(Ok(payload), 0, []), root, maxBytes).files;
    forall i, j | 0 <= i < j < |files| ensures files[i].path != files[j].path {
      NumberedPathsDiffer(codec, root, files, i, j);
    }
  }

  /** Whatever the request holds, and whether or not it is rejected, the node never writes
      more than `maxBytes` bytes and never writes one path twice. */
  lemma RequestStaysWithinLimit(codec: Codec, capability: string, payload: Payload, attachments: seq<Attachment>, root: string, maxBytes: nat)
    ensures var files := Received(codec, AttachmentFields(capability), attachments, Inbox(Ok(payload), 0, []), root, maxBytes).files;
            && BytesIn(files) <= maxBytes
            && forall i, j | 0 <= i < j < |files| :: files[i].path != files[j].path
  {
    PathsDiffer(codec, AttachmentFields(capability), payload, attachments, root, maxBytes);
  }

  // ----- What the node accepts, for every request -----

  /** The table has the field, and the attachment says a position exactly where it should. */
  ghost predicate FitsSlot(slot: Slot, a: Attachment) {
    slot.name == a.field && if slot.multiple then a.index.Some? && 0 <= a.index.value <= 15 else a.index.None?
  }

  /** Acceptable by itself: a field of the table, a position where there should be one, text that
      decodes, and the digest of what it decodes to. */
  ghost predicate Acceptable(codec: Codec, fields: seq<Slot>, a: Attachment) {
    && (exists k :: 0 <= k < |fields| && FitsSlot(fields[k], a))
    && codec.decode(a.dataBase64).Some?
    && a.sha256 == codec.sha256(codec.decode(a.dataBase64).value)
  }

  function Decoded(codec: Codec, attachments: seq<Attachment>): nat {
    if attachments == [] then 0
    else
      var data := codec.decode(attachments[0].dataBase64);
      (if data.Some? then |data.value| else 0) + Decoded(codec, attachments[1..])
  }

  /** What a rejection says is so of the attachment. */
  ghost predicate Blames(codec: Codec, fields: seq<Slot>, a: Attachment, error: ReceiveError) {
    match error
    case InvalidField => forall k | 0 <= k < |fields| :: fields[k].name != a.field
    case InvalidIndex =>
      && (exists k | 0 <= k < |fields| :: fields[k] == Slot(a.field, true))
      && (a.index.None? || !(0 <= a.index.value <= 15))
    case UnexpectedIndex => (exists k | 0 <= k < |fields| :: fields[k] == Slot(a.field, false)) && a.index.Some?
    case InvalidEncoding => codec.decode(a.dataBase64).None?
    case ChecksumMismatch => codec.decode(a.dataBase64).Some? && a.sha256 != codec.sha256(codec.decode(a.dataBase64).value)
    case TooMuchReceived => codec.decode(a.dataBase64).Some?
  }

  lemma {:induction false} AllowedIff(fields: seq<Slot>, a: Attachment)
    requires DistinctFields(fields)
    ensures Allowed(fields, a.field).None? <==> forall k | 0 <= k < |fields| :: fields[k].name != a.field
    ensures Allowed(fields, a.field).Some? ==> exists k | 0 <= k < |fields| :: fields[k] == Slot(a.field, Allowed(fields, a.field).value)
    ensures (exists k :: 0 <= k < |fields| && FitsSlot(fields[k], a)) <==>
              Allowed(fields, a.field).Some? && FitsSlot(Slot(a.field, Allowed(fields, a.field).value), a)
  {
    if k :| 0 <= k < |fields| && fields[k].name == a.field {
      AllowedAt(fields, k);
      assert fields[k] == Slot(a.field, Allowed(fields, a.field).value);
      forall m | 0 <= m < |fields| && fields[m].name == a.field ensures m == k {
      }
    } else {
      NotAllowed(fields, a.field);
    }
  }

  lemma {:induction false} NotAllowed(fields: seq<Slot>, field: string)
    requires forall k | 0 <= k < |fields| :: fields[k].name != field
    ensures Allowed(fields, field).None?
  {
    if fields != [] {
      assert fields[0].name != field;
      NotAllowed(fields[1..], field);
    }
  }

  /** One attachment: taken exactly when it is acceptable and fits what is left of the limit. */
  lemma NextIff(codec: Codec, fields: seq<Slot>, a: Attachment, s: Inbox, root: string, maxBytes: nat)
    requires DistinctFields(fields) && s.result.Ok?
    ensures var s' := ReceiveNext(codec, fields, root, maxBytes, a, s);
            var data := codec.decode(a.dataBase64);
            if Acceptable(codec, fields, a) && s.total + |data.value| <= maxBytes then
              && s'.total == s.total + |data.value|
              && |s'.files| == |s.files| + 1 && s'.files[..|s.files|] == s.files && s'.files[|s.files|].bytes == data.value
              && s'.result == Ok(Place(s.result.value, a.field, a.index.Some?, if a.index.Some? then a.index.value else 0, s'.files[|s.files|].path))
            else
              && s'.result.Err? && Blames(codec, fields, a, s'.result.error)
              && (s'.result.error.TooMuchReceived? ==> s.total + |data.value| > maxBytes)
  {
    AllowedIff(fields, a);
  }

  /** Why the node rejected the request. */
  ghost predicate Explains(codec: Codec, fields: seq<Slot>, attachments: seq<Attachment>, total: nat, maxBytes: nat, error: ReceiveError) {
    exists i | 0 <= i < |attachments| ::
      && Blames(codec, fields, attachments[i], error)
      && (error.TooMuchReceived? ==> total + Decoded(codec, attachments) > maxBytes)
  }

  ghost predicate AllAcceptable(codec: Codec, fields: seq<Slot>, attachments: seq<Attachment>) {
    forall i | 0 <= i < |attachments| :: Acceptable(codec, fields, attachments[i])
  }

  lemma AllAcceptableCons(codec: Codec, fields: seq<Slot>, attachments: seq<Attachment>)
    requires attachments != []
    ensures AllAcceptable(codec, fields, attachments) <==>
              Acceptable(codec, fields, attachments[0]) && AllAcceptable(codec, fields, attachments[1..])
  {
    assert forall i | 0 <= i < |attachments| - 1 :: attachments[1..][i] == attachments[i + 1];
  }

  lemma ExplainsLater(codec: Codec, fields: seq<Slot>, attachments: seq<Attachment>, total: nat, maxBytes: nat, error: ReceiveError)
    requires attachments != []
    requires Explains(codec, fields, attachments[1..], total + Decoded(codec, attachments) - Decoded(codec, attachments[1..]), maxBytes, error)
    ensures Explains(codec, fields, attachments, total, maxBytes, error)
  {
    var i :| 0 <= i < |attachments[1..]| && Blames(codec, fields, attachments[1..][i], error)
      && (error.TooMuchReceived? ==> total + Decoded(codec, attachments) > maxBytes);
    assert Blames(codec, fields, attachments[i + 1], error);
  }

  lemma {:induction false} ReceivedIff(codec: Codec, fields: seq<Slot>, attachments: seq<Attachment>, s: Inbox, root: string, maxBytes: nat)
    requires DistinctFields(fields) && s.result.Ok? && s.total <= maxBytes
    ensures var s' := Received(codec, fields, attachments, s, root, maxBytes);
            && (s'.result.Ok? <==> AllAcceptable(codec, fields, attachments) && s.total + Decoded(codec, attachments) <= maxBytes)
            && (s'.result.Ok? ==> Copied(codec, attachments, s.files, s'.files))
            && (s'.result.Err? ==> Explains(codec, fields, attachments, s.total, maxBytes, s'.result.error))
  {
    if attachments != [] {
      var a, rest := attachments[0], attachments[1..];
      var s1 := ReceiveNext(codec, fields, root, maxBytes, a, s);
      NextIff(codec, fields, a, s, root, maxBytes);
      AllAcceptableCons(codec, fields, attachments);
      if s1.result.Ok? {
        ReceivedIff(codec, fields, rest, s1, root, maxBytes);
        var s' := Received(codec, fields, rest, s1, root, maxBytes);
        if s'.result.Err? {
          ExplainsLater(codec, fields, attachments, s.total, maxBytes, s'.result.error);
        } else {
          CopiedCons(codec, attachments, s.files, s1.files, s'.files);
        }
      } else {
        assert Blames(codec, fields, attachments[0], s1.result.error);
      }
    }
  }

  /** One more file for each attachment, with the bytes it decodes to. */
  ghost predicate Copied(codec: Codec, attachments: seq<Attachment>, before: seq<Written>, files: seq<Written>) {
    && |files| == |before| + |attachments|
    && (forall i | 0 <= i < |before| :: files[i] == before[i])
    && forall i | 0 <= i < |attachments| :: codec.decode(attachments[i].dataBase64) == Some(files[|before| + i].bytes)
  }

  lemma CopiedCons(codec: Codec, attachments: seq<Attachment>, before: seq<Written>, next: seq<Written>, files: seq<Written>)
    requires attachments != [] && Copied(codec, attachments[1..], next, files)
    requires |next| == |before| + 1 && next[..|before|] == before
    requires codec.decode(attachments[0].dataBase64) == Some(next[|before|].bytes)
    ensures Copied(codec, attachments, before, files)
  {
    forall i | 0 < i < |attachments| ensures codec.decode(attachments[i].dataBase64) == Some(files[|before| + i].bytes) {
      assert attachments[1..][i - 1] == attachments[i] && files[|next| + (i - 1)] == files[|before| + i];
    }
  }

  /** Where the path of an attachment's file stands. */
  ghost predicate StandsAt(payload: Payload, a: Attachment, path: string) {
    && a.field in payload
    && if a.index.None? then payload[a.field] == Str(path)
       else
         && payload[a.field].List? && 0 <= a.index.value < |payload[a.field].items|
         && payload[a.field].items[a.index.value] == Str(path)
  }

  ghost predicate SamePlace(a: Attachment, b: Attachment) {
    a.field == b.field && a.index == b.index
  }

  /** Taking an attachment puts its path in its place and moves nothing that stands elsewhere. */
  lemma PlaceLaw(payload: Payload, b: Attachment, path: string)
    requires b.index.Some? ==> b.index.value >= 0
    ensures var next := Place(payload, b.field, b.index.Some?, if b.index.Some? then b.index.value else 0, path);
            && StandsAt(next, b, path)
            && (forall key | key != b.field :: SameAt(payload, next, key))
            && (b.index.Some? ==>
                  var was := if Get(payload, b.field).List? then Get(payload, b.field).items else [];
                  forall i | 0 <= i < |next[b.field].items| && i != b.index.value ::
                    next[b.field].items[i] == if i < |was| then was[i] else Null)
            && (b.index.Some? ==>
                  var was := if Get(payload, b.field).List? then Get(payload, b.field).items else [];
                  |next[b.field].items| == if |was| > b.index.value then |was| else b.index.value + 1)
  {
    if b.index.Some? {
      ExtendedNull(if Get(payload, b.field).List? then Get(payload, b.field).items else [], b.index.value + 1);
    }
  }

  lemma {:induction false} ExtendedNull(items: seq<Json>, length: nat)
    ensures forall i | |items| <= i < |Extended(items, length)| :: Extended(items, length)[i] == Null
    decreases length - |items|
  {
    if |items| < length {
      ExtendedNull(items + [Null], length);
    }
  }

  lemma {:induction false} StandsKept(codec: Codec, fields: seq<Slot>, attachments: seq<Attachment>, s: Inbox, root: string, maxBytes: nat, a: Attachment, path: string)
    requires DistinctFields(fields) && s.result.Ok? && s.total <= maxBytes && Received(codec, fields, attachments, s, root, maxBytes).result.Ok?
    requires Acceptable(codec, fields, a) && StandsAt(s.result.value, a, path)
    requires forall j | 0 <= j < |attachments| :: !SamePlace(a, attachments[j])
    ensures StandsAt(Received(codec, fields, attachments, s, root, maxBytes).result.value, a, path)
  {
    if attachments != [] {
      var b := attachments[0];
      NextIff(codec, fields, b, s, root, maxBytes);
      AllowedIff(fields, a);
      AllowedIff(fields, b);
      var s1 := ReceiveNext(codec, fields, root, maxBytes, b, s);
      PlaceLaw(s.result.value, b, s1.files[|s.files|].path);
      assert !SamePlace(a, b);
      StandsKept(codec, fields, attachments[1..], s1, root, maxBytes, a, path);
    }
  }

  /** No later attachment has the same place. */
  ghost predicate LastThere(attachments: seq<Attachment>, i: nat)
    requires i < |attachments|
  {
    forall j | i < j < |attachments| :: !SamePlace(attachments[i], attachments[j])
  }

  /** The path of every attachment stands in its place, unless a later one has the same place. */
  ghost predicate AllStand(attachments: seq<Attachment>, result: Payload, files: seq<Written>, first: nat) {
    && |files| == first + |attachments|
    && forall i | 0 <= i < |attachments| && LastThere(attachments, i) :: StandsAt(result, attachments[i], files[first + i].path)
  }

  ghost predicate Named(attachments: seq<Attachment>, key: string) {
    exists i :: 0 <= i < |attachments| && attachments[i].field == key
  }

  /** Every key that no attachment names is as it was. */
  ghost predicate OthersSame(attachments: seq<Attachment>, payload: Payload, result: Payload) {
    forall key | !Named(attachments, key) :: SameAt(payload, result, key)
  }

  lemma AllStandCons(attachments: seq<Attachment>, result: Payload, files: seq<Written>, first: nat)
    requires attachments != [] && AllStand(attachments[1..], result, files, first + 1)
    requires LastThere(attachments, 0) ==> StandsAt(result, attachments[0], files[first].path)
    ensures AllStand(attachments, result, files, first)
  {
    forall i | 0 <= i < |attachments| && LastThere(attachments, i)
      ensures StandsAt(result, attachments[i], files[first + i].path)
    {
      if i > 0 {
        LastThereInRest(attachments, i);
        assert StandsAt(result, attachments[1..][i - 1], files[first + 1 + (i - 1)].path);
      }
    }
  }

  lemma LastThereInRest(attachments: seq<Attachment>, i: nat)
    requires 0 < i < |attachments| && LastThere(attachments, i)
    ensures LastThere(attachments[1..], i - 1)
  {
    assert forall j | 0 <= j < |attachments| - 1 :: attachments[1..][j] == attachments[j + 1];
  }

  lemma OthersSameCons(attachments: seq<Attachment>, payload: Payload, next: Payload, result: Payload)
    requires attachments != [] && OthersSame(attachments[1..], next, result)
    requires forall key | key != attachments[0].field :: SameAt(payload, next, key)
    ensures OthersSame(attachments, payload, result)
  {
    forall key | !Named(attachments, key) ensures SameAt(payload, result, key) {
      assert attachments[0].field != key;
      if i :| 0 <= i < |attachments[1..]| && attachments[1..][i].field == key {
        assert attachments[i + 1].field == key;
      }
      assert SameAt(payload, next, key) && SameAt(next, result, key);
    }
  }

  lemma {:induction false} ReceivedPlaces(codec: Codec, fields: seq<Slot>, attachments: seq<Attachment>, s: Inbox, root: string, maxBytes: nat)
    requires DistinctFields(fields) && s.result.Ok? && s.total <= maxBytes && Received(codec, fields, attachments, s, root, maxBytes).result.Ok?
    ensures var s' := Received(codec, fields, attachments, s, root, maxBytes);
            AllStand(attachments, s'.result.value, s'.files, |s.files|) && OthersSame(attachments, s.result.value, s'.result.value)
  {
    if attachments != [] {
      var a, rest := attachments[0], attachments[1..];
      var s1 := ReceiveNext(codec, fields, root, maxBytes, a, s);
      var s' := Received(codec, fields, rest, s1, root, maxBytes);
      NextIff(codec, fields, a, s, root, maxBytes);
      PlaceLaw(s.result.value, a, s1.files[|s.files|].path);
      FirstFileStays(codec, fields, rest, s1, root, maxBytes);
      ReceivedPlaces(codec, fields, rest, s1, root, maxBytes);
      if LastThere(attachments, 0) {
        StandsKept(codec, fields, rest, s1, root, maxBytes, a, s1.files[|s.files|].path);
      }
      AllStandCons(attachments, s'.result.value, s'.files, |s.files|);
      OthersSameCons(attachments, s.result.value, s1.result.value, s'.result.value);
    }
  }

  lemma FirstFileStays(codec: Codec, fields: seq<Slot>, attachments: seq<Attachment>, s: Inbox, root: string, maxBytes: nat)
    requires DistinctFields(fields) && s.result.Ok? && s.total <= maxBytes && Received(codec, fields, attachments, s, root, maxBytes).result.Ok?
    ensures var files := Received(codec, fields, attachments, s, root, maxBytes).files;
            |files| >= |s.files| && forall i | 0 <= i < |s.files| :: files[i] == s.files[i]
  {
    ReceivedIff(codec, fields, attachments, s, root, maxBytes);
  }

  /** The node's law, for every request: it is accepted exactly when every attachment is
      acceptable by itself and together they decode to no more than the limit; then there is one
      file for each, with the decoded bytes, whose path stands at the attachment's field and
      position unless a later attachment has the same place. A rejection names its reason. */
  lemma RequestLaw(codec: Codec, capability: string, payload: Payload, attachments: seq<Attachment>, root: string, maxBytes: nat)
    ensures var fields := AttachmentFields(capability);
            var s := Received(codec, fields, attachments, Inbox(Ok(payload), 0, []), root, maxBytes);
            && (s.result.Ok? <==> AllAcceptable(codec, fields, attachments) && Decoded(codec, attachments) <= maxBytes)
            && (s.result.Ok? ==>
                  && Copied(codec, attachments, [], s.files)
                  && AllStand(attachments, s.result.value, s.files, 0)
                  && OthersSame(attachments, payload, s.result.value))
            && (s.result.Err? ==> Explains(codec, fields, attachments, 0, maxBytes, s.result.error))
  {
    TableDistinct(capability);
    var fields, s := AttachmentFields(capability), Inbox(Ok(payload), 0, []);
    ReceivedIff(codec, fields, attachments, s, root, maxBytes);
    if Received(codec, fields, attachments, s, root, maxBytes).result.Ok? {
      ReceivedPlaces(codec, fields, attachments, s, root, maxBytes);
    }
  }

  // ----- The round trip -----

  ghost predicate Exist(local: Local, items: seq<Item>) {
    forall i | 0 <= i < |items| :: Require(local, items[i].value).Some?
  }

  /** The attachments of the items, and their bytes. */
  ghost function Parcel(codec: Codec, local: Local, items: seq<Item>): seq<Attachment>
    requires Exist(local, items)
  {
    if items == [] then []
    else [AttachmentOf(codec, items[0], Require(local, items[0].value).value)] + Parcel(codec, local, items[1..])
  }

  ghost function Weight(local: Local, items: seq<Item>): nat
    requires Exist(local, items)
  {
    if items == [] then 0
    else |Require(local, items[0].value).value.bytes| + Weight(local, items[1..])
  }

  /** The gateway succeeds exactly when every file exists and together they fit. */
  lemma {:induction false} AttachIff(codec: Codec, local: Local, items: seq<Item>, before: seq<Attachment>, maxBytes: nat)
    requires Total(before) <= maxBytes
    ensures var r := Attach(codec, local, items, before, maxBytes);
            && (r.Ok? <==> Exist(local, items) && Total(before) + Weight(local, items) <= maxBytes)
            && (r.Ok? ==> r.value == before + Parcel(codec, local, items))
  {
    if items == [] {
      assert before + [] == before;
    } else {
      ExistCons(local, items);
      var file := Require(local, items[0].value);
      if file.Some? {
        var a := AttachmentOf(codec, items[0], file.value);
        TotalGrows(before, a);
        if Total(before) + a.size <= maxBytes {
          AttachIff(codec, local, items[1..], before + [a], maxBytes);
          if Exist(local, items) {
            SplitAt(before, [a], Parcel(codec, local, items[1..]));
          }
        }
      }
    }
  }

  lemma ExistCons(local: Local, items: seq<Item>)
    requires items != []
    ensures Exist(local, items) <==> Require(local, items[0].value).Some? && Exist(local, items[1..])
  {
    assert items == [items[0]] + items[1..];
  }

  lemma {:induction false} ParcelConcat(codec: Codec, local: Local, a: seq<Item>, b: seq<Item>)
    requires Exist(local, a + b)
    ensures Exist(local, a) && Exist(local, b)
    ensures Parcel(codec, local, a + b) == Parcel(codec, local, a) + Parcel(codec, local, b)
    ensures Weight(local, a + b) == Weight(local, a) + Weight(local, b)
  {
    assert forall i | 0 <= i < |a| :: (a + b)[i] == a[i];
    assert forall i | 0 <= i < |b| :: (a + b)[|a| + i] == b[i];
    if a == [] {
      assert a + b == b;
    } else {
      assert (a + b)[1..] == a[1..] + b;
      assert Exist(local, (a + b)[1..]);
      ParcelConcat(codec, local, a[1..], b);
    }
  }

  /** What stands in a field after the transfer: the path, or the paths in order. */
  function Rebuilt(multiple: bool, files: seq<Written>): Json
    requires files != []
  {
    if multiple then List(Paths(files)) else Str(files[0].path)
  }

  function Paths(files: seq<Written>): seq<Json> {
    seq(|files|, i requires 0 <= i < |files| => Str(files[i].path))
  }

  /** The files hold the bytes of the values, one each, in order. */
  ghost predicate Copies(local: Local, values: seq<Json>, files: seq<Written>) {
    && |files| == |values|
    && forall i | 0 <= i < |values| ::
         Require(local, values[i]).Some? && files[i].bytes == Require(local, values[i]).value.bytes
  }

  /** Field by field, in the order of the table: the field holds the paths of the next files
      written, at the positions of the values, and those files are copies of the values. */
  ghost predicate Refilled(local: Local, fields: seq<Slot>, payload: Payload, result: Payload, files: seq<Written>) {
    if fields == [] then files == []
    else
      var Slot(field, multiple) := fields[0];
      var values := FieldValues(payload, field, multiple);
      && |values| <= |files|
      && Copies(local, values, files[..|values|])
      && (values != [] ==> field in result && result[field] == Rebuilt(multiple, files[..|values|]))
      && Refilled(local, fields[1..], payload, result, files[|values|..])
  }

  /** The two payloads agree on every key that did not travel as an attachment. */
  ghost predicate SameElsewhere(a: Payload, b: Payload, popped: set<string>) {
    forall key | key !in popped :: (key in a <==> key in b) && (key in a ==> a[key] == b[key])
  }

  ghost predicate DistinctFields(fields: seq<Slot>) {
    forall i, j | 0 <= i < j < |fields| :: fields[i].name != fields[j].name
  }

  lemma {:induction false} AllowedAt(fields: seq<Slot>, n: nat)
    requires n < |fields| && DistinctFields(fields)
    ensures Allowed(fields, fields[n].name) == Some(fields[n].multiple)
  {
    if n > 0 {
      assert DistinctFields(fields[1..]);
      AllowedAt(fields[1..], n - 1);
    }
  }

  /** The node takes an honest attachment: it writes a copy and records the path. */
  lemma ReceiveHonest(codec: Codec, local: Local, fields: seq<Slot>, item: Item, s: Inbox, root: string, maxBytes: nat)
    returns (w: Written)
    requires codec.Lawful() && s.result.Ok? && Require(local, item.value).Some?
    requires Allowed(fields, item.field) == Some(item.multiple) && (item.multiple ==> item.index <= MAX_INDEX)
    requires s.total + |Require(local, item.value).value.bytes| <= maxBytes
    ensures w.bytes == Require(local, item.value).value.bytes
    ensures ReceiveNext(codec, fields, root, maxBytes, AttachmentOf(codec, item, Require(local, item.value).value), s) ==
              Inbox(Ok(Place(s.result.value, item.field, item.multiple, item.index, w.path)), s.total + |w.bytes|, s.files + [w])
  {
    var file := Require(local, item.value).value;
    w := Written(InputPath(codec, root, |s.files|, file.name, file.bytes), file.bytes);
    assert codec.decode(codec.encode(file.bytes)) == Some(file.bytes);
    assert Place(s.result.value, item.field, false, 0, w.path) == Place(s.result.value, item.field, false, item.index, w.path);
  }

  lemma PlaceNext(payload: Payload, field: string, files: seq<Written>, w: Written)
    requires if files == [] then field !in payload else field in payload && payload[field] == List(Paths(files))
    ensures Place(payload, field, true, |files|, w.path) == payload[field := List(Paths(files + [w]))]
  {
    var items := Extended(Paths(files), |files| + 1);
    assert Paths(files + [w]) == Paths(files) + [Str(w.path)];
    assert items[|files| := Str(w.path)] == Paths(files + [w]);
  }

  /** The values of a list field from position `n` on. */
  ghost predicate ListTail(items: seq<Item>, field: string, n: nat) {
    forall i | 0 <= i < |items| :: items[i].field == field && items[i].multiple && items[i].index == n + i
  }

  ghost predicate CopiesItems(local: Local, items: seq<Item>, files: seq<Written>)
    requires Exist(local, items)
  {
    |files| == |items| && forall i | 0 <= i < |items| :: files[i].bytes == Require(local, items[i].value).value.bytes
  }

  ghost predicate HoldsList(payload: Payload, field: string, files: seq<Written>) {
    if files == [] then field !in payload else field in payload && payload[field] == List(Paths(files))
  }

  lemma ParcelStep(codec: Codec, local: Local, fields: seq<Slot>, items: seq<Item>, rest: seq<Attachment>, s: Inbox, root: string, maxBytes: nat)
    requires items != [] && Exist(local, items) && s.result.Ok?
    ensures Exist(local, items[1..])
    ensures Received(codec, fields, Parcel(codec, local, items) + rest, s, root, maxBytes) ==
              Received(codec, fields, Parcel(codec, local, items[1..]) + rest,
                       ReceiveNext(codec, fields, root, maxBytes, AttachmentOf(codec, items[0], Require(local, items[0].value).value), s),
                       root, maxBytes)
  {
    var a := AttachmentOf(codec, items[0], Require(local, items[0].value).value);
    HeadAndTail(a, Parcel(codec, local, items[1..]), rest);
  }

  lemma HeadAndTail<T>(a: T, b: seq<T>, c: seq<T>)
    ensures var all := [a] + b + c; all[0] == a && all[1..] == b + c
  {
  }

  /** One value of a list field. */
  lemma ReceiveListItem(codec: Codec, local: Local, fields: seq<Slot>, field: string, items: seq<Item>,
                        before: seq<Written>, rest: seq<Attachment>, s: Inbox, root: string, maxBytes: nat)
    returns (w: Written, s': Inbox)
    requires codec.Lawful() && Allowed(fields, field) == Some(true) && s.result.Ok? && HoldsList(s.result.value, field, before)
    requires items != [] && ListTail(items, field, |before|) && Exist(local, items) && |before| <= MAX_INDEX
    requires s.total + Weight(local, items) <= maxBytes
    ensures Exist(local, items[1..]) && w.bytes == Require(local, items[0].value).value.bytes
    ensures s'.result.Ok? && HoldsList(s'.result.value, field, before + [w])
    ensures SameElsewhere(s.result.value, s'.result.value, {field})
    ensures s'.total == s.total + |w.bytes| && s'.files == s.files + [w]
    ensures Received(codec, fields, Parcel(codec, local, items) + rest, s, root, maxBytes) ==
              Received(codec, fields, Parcel(codec, local, items[1..]) + rest, s', root, maxBytes)
  {
    ParcelStep(codec, local, fields, items, rest, s, root, maxBytes);
    w := ReceiveHonest(codec, local, fields, items[0], s, root, maxBytes);
    PlaceNext(s.result.value, field, before, w);
    s' := Inbox(Ok(s.result.value[field := List(Paths(before + [w]))]), s.total + |w.bytes|, s.files + [w]);
  }

  /** The inbox `s'` is `s` after the list has been filled up with copies of the items. */
  ghost predicate Filled(local: Local, items: seq<Item>, field: string, before: seq<Written>, files: seq<Written>, s: Inbox, s': Inbox)
    requires Exist(local, items) && s.result.Ok?
  {
    && CopiesItems(local, items, files)
    && s'.result.Ok? && HoldsList(s'.result.value, field, before + files)
    && SameElsewhere(s.result.value, s'.result.value, {field})
    && s'.total == s.total + Weight(local, items)
    && s'.files == s.files + files
  }

  lemma FilledStep(local: Local, items: seq<Item>, field: string, before: seq<Written>, w: Written, more: seq<Written>, s: Inbox, s1: Inbox, s': Inbox)
    requires items != [] && Exist(local, items) && Exist(local, items[1..]) && s.result.Ok? && s1.result.Ok?
    requires w.bytes == Require(local, items[0].value).value.bytes
    requires SameElsewhere(s.result.value, s1.result.value, {field})
    requires s1.total == s.total + |w.bytes| && s1.files == s.files + [w]
    requires Filled(local, items[1..], field, before + [w], more, s1, s')
    ensures Filled(local, items, field, before, [w] + more, s, s')
  {
    assert before + [w] + more == before + ([w] + more);
    assert s.files + [w] + more == s.files + ([w] + more);
  }

  lemma {:induction false} ReceiveList(codec: Codec, local: Local, fields: seq<Slot>, field: string, items: seq<Item>,
                                       before: seq<Written>, rest: seq<Attachment>, s: Inbox, root: string, maxBytes: nat)
    returns (files: seq<Written>, s': Inbox)
    requires codec.Lawful() && Allowed(fields, field) == Some(true) && s.result.Ok? && HoldsList(s.result.value, field, before)
    requires ListTail(items, field, |before|) && Exist(local, items) && |before| + |items| <= MAX_INDEX + 1
    requires s.total + Weight(local, items) <= maxBytes
    ensures Filled(local, items, field, before, files, s, s')
    ensures Received(codec, fields, Parcel(codec, local, items) + rest, s, root, maxBytes) ==
              Received(codec, fields, rest, s', root, maxBytes)
    decreases |items|
  {
    if items == [] {
      files, s' := [], s;
      assert [] + rest == rest && s.files + [] == s.files && before + [] == before;
    } else {
      var w, s1 := ReceiveListItem(codec, local, fields, field, items, before, rest, s, root, maxBytes);
      var more;
      more, s' := ReceiveList(codec, local, fields, field, items[1..], before + [w], rest, s1, root, maxBytes);
      FilledStep(local, items, field, before, w, more, s, s1, s');
      files := [w] + more;
    }
  }

  /** The sender puts no bound on a list, the receiver does. */
  lemma {:induction false} ReceiveTooMany(codec: Codec, local: Local, fields: seq<Slot>, field: string, items: seq<Item>,
                                          before: seq<Written>, rest: seq<Attachment>, s: Inbox, root: string, maxBytes: nat)
    requires codec.Lawful() && Allowed(fields, field) == Some(true) && s.result.Ok? && HoldsList(s.result.value, field, before)
    requires ListTail(items, field, |before|) && Exist(local, items) && |before| <= MAX_INDEX + 1 < |before| + |items|
    requires s.total + Weight(local, items) <= maxBytes
    ensures Received(codec, fields, Parcel(codec, local, items) + rest, s, root, maxBytes).result == Err(InvalidIndex)
    decreases |items|
  {
    if |before| <= MAX_INDEX {
      var w, s1 := ReceiveListItem(codec, local, fields, field, items, before, rest, s, root, maxBytes);
      ReceiveTooMany(codec, local, fields, field, items[1..], before + [w], rest, s1, root, maxBytes);
    } else {
      ParcelStep(codec, local, fields, items, rest, s, root, maxBytes);
    }
  }

  /** The inbox `s'` is `s` after all the values of a field, list or not. */
  ghost predicate TookField(local: Local, field: string, multiple: bool, values: seq<Json>, files: seq<Written>, s: Inbox, s': Inbox)
    requires Exist(local, ItemsOf(field, multiple, values)) && s.result.Ok?
  {
    && Copies(local, values, files)
    && s'.result.Ok?
    && (values != [] ==> field in s'.result.value && s'.result.value[field] == Rebuilt(multiple, files))
    && SameElsewhere(s.result.value, s'.result.value, if values == [] then {} else {field})
    && s'.total == s.total + Weight(local, ItemsOf(field, multiple, values))
    && s'.files == s.files + files
  }

  lemma ReceiveField(codec: Codec, local: Local, fields: seq<Slot>, field: string, multiple: bool, values: seq<Json>,
                     rest: seq<Attachment>, s: Inbox, root: string, maxBytes: nat)
    returns (files: seq<Written>, s': Inbox)
    requires codec.Lawful() && Allowed(fields, field) == Some(multiple) && s.result.Ok? && (values == [] || field !in s.result.value)
    requires Exist(local, ItemsOf(field, multiple, values)) && (if multiple then |values| <= MAX_INDEX + 1 else |values| <= 1)
    requires s.total + Weight(local, ItemsOf(field, multiple, values)) <= maxBytes
    ensures TookField(local, field, multiple, values, files, s, s')
    ensures Received(codec, fields, Parcel(codec, local, ItemsOf(field, multiple, values)) + rest, s, root, maxBytes) ==
              Received(codec, fields, rest, s', root, maxBytes)
  {
    var items := ItemsOf(field, multiple, values);
    if values == [] {
      files, s' := [], s;
      assert [] + rest == rest && s.files + [] == s.files;
    } else if multiple {
      files, s' := ReceiveList(codec, local, fields, field, items, [], rest, s, root, maxBytes);
      ListTaken(local, field, values, files, s, s');
    } else {
      files, s' := ReceiveSingle(codec, local, fields, field, values, rest, s, root, maxBytes);
    }
  }

  lemma ListTaken(local: Local, field: string, values: seq<Json>, files: seq<Written>, s: Inbox, s': Inbox)
    requires values != [] && Exist(local, ItemsOf(field, true, values)) && s.result.Ok?
    requires Filled(local, ItemsOf(field, true, values), field, [], files, s, s')
    ensures TookField(local, field, true, values, files, s, s')
  {
    assert [] + files == files;
    CopiesOf(local, field, values, files);
  }

  lemma CopiesOf(local: Local, field: string, values: seq<Json>, files: seq<Written>)
    requires Exist(local, ItemsOf(field, true, values)) && CopiesItems(local, ItemsOf(field, true, values), files)
    ensures Copies(local, values, files)
  {
    forall i | 0 <= i < |values|
      ensures Require(local, values[i]).Some? && files[i].bytes == Require(local, values[i]).value.bytes
    {
      assert Require(local, ItemsOf(field, true, values)[i].value).Some?;
    }
  }

  lemma ReceiveSingle(codec: Codec, local: Local, fields: seq<Slot>, field: string, values: seq<Json>,
                      rest: seq<Attachment>, s: Inbox, root: string, maxBytes: nat)
    returns (files: seq<Written>, s': Inbox)
    requires codec.Lawful() && Allowed(fields, field) == Some(false) && s.result.Ok?
    requires |values| == 1 && Exist(local, ItemsOf(field, false, values))
    requires s.total + Weight(local, ItemsOf(field, false, values)) <= maxBytes
    ensures TookField(local, field, false, values, files, s, s')
    ensures Received(codec, fields, Parcel(codec, local, ItemsOf(field, false, values)) + rest, s, root, maxBytes) ==
              Received(codec, fields, rest, s', root, maxBytes)
  {
    var items := ItemsOf(field, false, values);
    ParcelStep(codec, local, fields, items, rest, s, root, maxBytes);
    var w := ReceiveHonest(codec, local, fields, items[0], s, root, maxBytes);
    files, s' := [w], Inbox(Ok(s.result.value[field := Str(w.path)]), s.total + |w.bytes|, s.files + [w]);
    assert items[1..] == [] && [] + rest == rest;
    assert Weight(local, items) == |w.bytes|;
  }

  /** No list is longer than the sixteen positions the receiver has for a list field. */
  predicate ListsFit(fields: seq<Slot>, payload: Payload) {
    forall k | 0 <= k < |fields| && fields[k].multiple && Get(payload, fields[k].name).List? ::
      |Get(payload, fields[k].name).items| <= 16
  }

  /** The inbox `s'` is `s` after all the fields. */
  ghost predicate Delivered(local: Local, fields: seq<Slot>, payload: Payload, files: seq<Written>, s: Inbox, s': Inbox)
    requires s.result.Ok?
  {
    && s'.result.Ok?
    && s'.files == s.files + files
    && Refilled(local, fields, payload, s'.result.value, files)
    && SameElsewhere(s.result.value, s'.result.value, Popped(fields, payload))
  }

  lemma DeliveredStep(local: Local, fields: seq<Slot>, payload: Payload, first: seq<Written>, more: seq<Written>, s: Inbox, s1: Inbox, s': Inbox)
    requires fields != [] && s.result.Ok? && s1.result.Ok?
    requires Exist(local, ItemsOf(fields[0].name, fields[0].multiple, FieldValues(payload, fields[0].name, fields[0].multiple)))
    requires TookField(local, fields[0].name, fields[0].multiple, FieldValues(payload, fields[0].name, fields[0].multiple), first, s, s1)
    requires Delivered(local, fields[1..], payload, more, s1, s')
    requires fields[0].name !in Popped(fields[1..], payload)
    ensures Delivered(local, fields, payload, first + more, s, s')
  {
    var values := FieldValues(payload, fields[0].name, fields[0].multiple);
    SplitAt(s.files, first, more);
    ElsewhereTwice(s.result.value, s1.result.value, s'.result.value,
                   if values == [] then {} else {fields[0].name}, Popped(fields[1..], payload));
  }

  lemma SplitAt<T>(a: seq<T>, b: seq<T>, c: seq<T>)
    ensures (b + c)[..|b|] == b && (b + c)[|b|..] == c && a + b + c == a + (b + c)
  {
  }

  lemma ElsewhereTwice(a: Payload, b: Payload, c: Payload, p: set<string>, q: set<string>)
    requires SameElsewhere(a, b, p) && SameElsewhere(b, c, q)
    ensures SameElsewhere(a, c, p + q)
  {
  }

  /** The node's answer to honest attachments: all the fields delivered, or one list too long. */
  ghost predicate Answered(local: Local, fields: seq<Slot>, payload: Payload, files: seq<Written>, s: Inbox, s': Inbox)
    requires s.result.Ok?
  {
    if ListsFit(fields, payload) then Delivered(local, fields, payload, files, s, s') else s'.result == Err(InvalidIndex)
  }

  /** The node knows the fields, by the same kind. */
  ghost predicate Knows(table: seq<Slot>, fields: seq<Slot>) {
    forall k | 0 <= k < |fields| :: Allowed(table, fields[k].name) == Some(fields[k].multiple)
  }

  /** The node's loop on the attachments of the first of the fields. */
  lemma ReceiveFirstField(codec: Codec, local: Local, table: seq<Slot>, fields: seq<Slot>, payload: Payload, s: Inbox, root: string, maxBytes: nat)
    returns (first: seq<Written>, s1: Inbox)
    requires codec.Lawful() && DistinctFields(fields) && Knows(table, fields) && fields != []
    requires s.result.Ok? && Popped(fields, payload) !! s.result.value.Keys
    requires Exist(local, Items(fields, payload)) && s.total + Weight(local, Items(fields, payload)) <= maxBytes
    requires |FieldValues(payload, fields[0].name, fields[0].multiple)| <= MAX_INDEX + 1
    ensures s1.result.Ok? && Popped(fields[1..], payload) !! s1.result.value.Keys
    ensures Exist(local, Items(fields[1..], payload)) && s1.total + Weight(local, Items(fields[1..], payload)) <= maxBytes
    ensures Exist(local, ItemsOf(fields[0].name, fields[0].multiple, FieldValues(payload, fields[0].name, fields[0].multiple)))
    ensures TookField(local, fields[0].name, fields[0].multiple, FieldValues(payload, fields[0].name, fields[0].multiple), first, s, s1)
    ensures Received(codec, table, Parcel(codec, local, Items(fields, payload)), s, root, maxBytes)
              == Received(codec, table, Parcel(codec, local, Items(fields[1..], payload)), s1, root, maxBytes)
  {
    var field, multiple := fields[0].name, fields[0].multiple;
    var values := FieldValues(payload, field, multiple);
    var rest := SplitParcel(codec, local, fields, payload);
    first, s1 := ReceiveField(codec, local, table, field, multiple, values, rest, s, root, maxBytes);
    NotPopped(fields, payload);
    StillMissing(s.result.value, s1.result.value, if values == [] then {} else {field}, Popped(fields[1..], payload));
  }

  lemma RejectFirstField(codec: Codec, local: Local, table: seq<Slot>, fields: seq<Slot>, payload: Payload, s: Inbox, root: string, maxBytes: nat)
    requires codec.Lawful() && Knows(table, fields) && fields != []
    requires s.result.Ok? && Popped(fields, payload) !! s.result.value.Keys
    requires Exist(local, Items(fields, payload)) && s.total + Weight(local, Items(fields, payload)) <= maxBytes
    requires |FieldValues(payload, fields[0].name, fields[0].multiple)| > MAX_INDEX + 1
    ensures Received(codec, table, Parcel(codec, local, Items(fields, payload)), s, root, maxBytes).result == Err(InvalidIndex)
  {
    var field, multiple := fields[0].name, fields[0].multiple;
    var rest := SplitParcel(codec, local, fields, payload);
    ReceiveTooMany(codec, local, table, field, ItemsOf(field, multiple, FieldValues(payload, field, multiple)), [], rest, s, root, maxBytes);
  }

  /** The node's whole loop on the gateway's attachments for some of the fields. */
  lemma {:induction false} ReceiveFields(codec: Codec, local: Local, table: seq<Slot>, fields: seq<Slot>, payload: Payload, s: Inbox, root: string, maxBytes: nat)
    returns (files: seq<Written>)
    requires codec.Lawful() && DistinctFields(fields) && Knows(table, fields)
    requires s.result.Ok? && Popped(fields, payload) !! s.result.value.Keys
    requires Exist(local, Items(fields, payload)) && s.total + Weight(local, Items(fields, payload)) <= maxBytes
    ensures Answered(local, fields, payload, files, s,
              Received(codec, table, Parcel(codec, local, Items(fields, payload)), s, root, maxBytes))
  {
    files := [];
    if fields == [] {
      assert s.files + [] == s.files;
    } else if |FieldValues(payload, fields[0].name, fields[0].multiple)| > MAX_INDEX + 1 {
      RejectFirstField(codec, local, table, fields, payload, s, root, maxBytes);
    } else {
      FitStep(fields, payload);
      var first, s1 := ReceiveFirstField(codec, local, table, fields, payload, s, root, maxBytes);
      var more := ReceiveFields(codec, local, table, fields[1..], payload, s1, root, maxBytes);
      files := first + more;
      if ListsFit(fields[1..], payload) {
        NotPopped(fields, payload);
        DeliveredStep(local, fields, payload, first, more, s, s1,
                      Received(codec, table, Parcel(codec, local, Items(fields[1..], payload)), s1, root, maxBytes));
      }
    }
  }

  /** Keys that were missing still are, but for those filled in. */
  lemma StillMissing(before: Payload, after: Payload, filled: set<string>, missing: set<string>)
    requires SameElsewhere(before, after, filled) && filled !! missing && missing !! before.Keys
    ensures missing !! after.Keys
  {
  }

  lemma SplitParcel(codec: Codec, local: Local, fields: seq<Slot>, payload: Payload)
    returns (rest: seq<Attachment>)
    requires fields != [] && Exist(local, Items(fields, payload))
    ensures var these := ItemsOf(fields[0].name, fields[0].multiple, FieldValues(payload, fields[0].name, fields[0].multiple));
            && Exist(local, these) && Exist(local, Items(fields[1..], payload))
            && rest == Parcel(codec, local, Items(fields[1..], payload))
            && Parcel(codec, local, Items(fields, payload)) == Parcel(codec, local, these) + rest
            && Weight(local, Items(fields, payload)) == Weight(local, these) + Weight(local, Items(fields[1..], payload))
  {
    var these := ItemsOf(fields[0].name, fields[0].multiple, FieldValues(payload, fields[0].name, fields[0].multiple));
    ParcelConcat(codec, local, these, Items(fields[1..], payload));
    rest := Parcel(codec, local, Items(fields[1..], payload));
  }

  lemma FitStep(fields: seq<Slot>, payload: Payload)
    requires fields != []
    ensures ListsFit(fields, payload) <==>
              |FieldValues(payload, fields[0].name, fields[0].multiple)| <= MAX_INDEX + 1 && ListsFit(fields[1..], payload)
  {
    assert forall k | 0 < k < |fields| :: fields[k] == fields[1..][k - 1];
  }

  lemma NotPopped(fields: seq<Slot>, payload: Payload)
    requires DistinctFields(fields) && fields != []
    ensures fields[0].name !in Popped(fields[1..], payload)
  {
    NamedElsewhere(fields[1..], payload, fields[0].name);
  }

  lemma {:induction false} NamedElsewhere(fields: seq<Slot>, payload: Payload, key: string)
    requires forall k | 0 <= k < |fields| :: fields[k].name != key
    ensures key !in Popped(fields, payload)
  {
    if fields != [] {
      assert fields[0].name != key;
      NamedElsewhere(fields[1..], payload, key);
    }
  }

  lemma PreparedParcel(codec: Codec, local: Local, fields: seq<Slot>, payload: Payload, maxBytes: nat)
    requires Prepared(codec, local, fields, payload, maxBytes).Ok?
    ensures Exist(local, Items(fields, payload)) && Weight(local, Items(fields, payload)) <= maxBytes
    ensures Prepared(codec, local, fields, payload, maxBytes).value ==
              (payload - Popped(fields, payload), Parcel(codec, local, Items(fields, payload)))
  {
    AttachIff(codec, local, Items(fields, payload), [], maxBytes);
    assert Exist(local, Items(fields, payload));
    assert [] + Parcel(codec, local, Items(fields, payload)) == Parcel(codec, local, Items(fields, payload));
  }

  /** Every position is one the node accepts. */
  predicate InRange(items: seq<Item>) {
    forall i | 0 <= i < |items| :: items[i].multiple ==> items[i].index <= MAX_INDEX
  }

  ghost predicate KnowsItems(table: seq<Slot>, items: seq<Item>) {
    forall i | 0 <= i < |items| :: Allowed(table, items[i].field) == Some(items[i].multiple)
  }

  /** The node takes the whole parcel exactly when every position is in range and the bytes fit
      its limit; else it names one of the two that is not so. */
  lemma {:induction false} ReceiveHonestIff(codec: Codec, local: Local, table: seq<Slot>, items: seq<Item>, s: Inbox, root: string, maxBytes: nat)
    requires codec.Lawful() && s.result.Ok? && s.total <= maxBytes && Exist(local, items) && KnowsItems(table, items)
    ensures var r := Received(codec, table, Parcel(codec, local, items), s, root, maxBytes).result;
            && (r.Ok? <==> InRange(items) && s.total + Weight(local, items) <= maxBytes)
            && (r.Err? ==>
                  || (r == Err(InvalidIndex) && !InRange(items))
                  || (r == Err(TooMuchReceived) && s.total + Weight(local, items) > maxBytes))
    decreases |items|
  {
    if items != [] {
      var item := items[0];
      var file := Require(local, item.value).value;
      var s1 := ReceiveNext(codec, table, root, maxBytes, AttachmentOf(codec, item, file), s);
      ExistCons(local, items);
      InRangeCons(items);
      assert codec.decode(codec.encode(file.bytes)) == Some(file.bytes);
      assert KnowsItems(table, items[1..]) by {
        assert forall i | 0 <= i < |items[1..]| :: items[1..][i] == items[i + 1];
      }
      if s1.result.Ok? {
        ReceiveHonestIff(codec, local, table, items[1..], s1, root, maxBytes);
      }
    }
  }

  lemma InRangeCons(items: seq<Item>)
    requires items != []
    ensures InRange(items) <==> (items[0].multiple ==> items[0].index <= MAX_INDEX) && InRange(items[1..])
  {
    assert items == [items[0]] + items[1..];
  }

  lemma ItemsInRange(field: string, multiple: bool, values: seq<Json>, rest: seq<Item>)
    requires !multiple ==> |values| <= 1
    ensures InRange(ItemsOf(field, multiple, values) + rest) <==> |values| <= MAX_INDEX + 1 && InRange(rest)
  {
    var these := ItemsOf(field, multiple, values);
    assert forall i | 0 <= i < |rest| :: (these + rest)[|these| + i] == rest[i];
    if |values| > MAX_INDEX + 1 {
      assert (these + rest)[MAX_INDEX + 1].index == MAX_INDEX + 1;
    }
  }

  lemma {:induction false} FieldsInRange(fields: seq<Slot>, payload: Payload)
    ensures InRange(Items(fields, payload)) <==> ListsFit(fields, payload)
  {
    if fields != [] {
      FieldsInRange(fields[1..], payload);
      FitStep(fields, payload);
      ItemsInRange(fields[0].name, fields[0].multiple, FieldValues(payload, fields[0].name, fields[0].multiple), Items(fields[1..], payload));
    }
  }

  lemma KnowsMore(table: seq<Slot>, field: string, multiple: bool, values: seq<Json>, rest: seq<Item>)
    requires Allowed(table, field) == Some(multiple) && KnowsItems(table, rest)
    ensures KnowsItems(table, ItemsOf(field, multiple, values) + rest)
  {
  }

  lemma {:induction false} FieldsKnown(table: seq<Slot>, fields: seq<Slot>, payload: Payload)
    requires Knows(table, fields)
    ensures KnowsItems(table, Items(fields, payload))
  {
    if fields != [] {
      FieldsKnown(table, fields[1..], payload);
      KnowsMore(table, fields[0].name, fields[0].multiple,
                FieldValues(payload, fields[0].name, fields[0].multiple), Items(fields[1..], payload));
    }
  }

  // ----- The round trip, read off the payload -----

  /** `a` carries the file that `value` names. */
  ghost predicate Carries(codec: Codec, local: Local, field: string, index: Option<int>, value: Json, a: Attachment) {
    && value.Truthy() && local(value).Some?
    && var file := local(value).value;
       a == Attachment(field, index, file.name, |file.bytes|, codec.sha256(file.bytes), codec.encode(file.bytes))
  }

  /** What one field asks for: a list in a list field, one attachment for each element at its
      index; any other value that is not falsy, exactly one; a falsy or missing one, none. */
  ghost predicate AsksFor(codec: Codec, local: Local, slot: Slot, payload: Payload, parcel: seq<Attachment>) {
    var raw := Get(payload, slot.name);
    if slot.multiple && raw.List? then
      |parcel| == |raw.items| && forall i | 0 <= i < |parcel| :: Carries(codec, local, slot.name, Some(i), raw.items[i], parcel[i])
    else if raw.Truthy() then
      |parcel| == 1 && Carries(codec, local, slot.name, if slot.multiple then Some(0) else None, raw, parcel[0])
    else parcel == []
  }

  /** The parcel holds what the fields ask for, field by field in the order of the table. */
  ghost predicate Fulfils(codec: Codec, local: Local, fields: seq<Slot>, payload: Payload, parcel: seq<Attachment>) {
    if fields == [] then parcel == []
    else exists n | 0 <= n <= |parcel| ::
      AsksFor(codec, local, fields[0], payload, parcel[..n]) && Fulfils(codec, local, fields[1..], payload, parcel[n..])
  }

  /** The payload without the fields that travel. */
  ghost predicate LeavesOut(payload: Payload, remote: Payload, parcel: seq<Attachment>) {
    && (forall key :: key in remote <==> key in payload && forall a | a in parcel :: a.field != key)
    && (forall key | key in remote :: remote[key] == payload[key])
  }

  /** The gateway succeeds exactly when some parcel holds what the payload asks for within the
      limit, and then sends that parcel and takes out the fields it stands for. */
  ghost predicate SendsWhatIsThere(codec: Codec, local: Local, fields: seq<Slot>, payload: Payload, maxBytes: nat,
                                   r: Result<(Payload, seq<Attachment>), SendError>)
  {
    && (r.Ok? <==> exists parcel :: Fulfils(codec, local, fields, payload, parcel) && Total(parcel) <= maxBytes)
    && (r.Ok? ==>
          && Fulfils(codec, local, fields, payload, r.value.1) && Total(r.value.1) <= maxBytes
          && LeavesOut(payload, r.value.0, r.value.1))
    && (r.Err? && r.error.NoSuchFile? ==>
          && (!r.error.value.Truthy() || local(r.error.value).None?)
          && exists k :: 0 <= k < |fields| && NamedIn(fields[k], payload, r.error.value))
  }

  /** The value is the field's, or one of its list. */
  ghost predicate NamedIn(slot: Slot, payload: Payload, value: Json) {
    var raw := Get(payload, slot.name);
    if slot.multiple && raw.List? then value in raw.items else value == raw
  }

  lemma {:induction false} ParcelAt(codec: Codec, local: Local, items: seq<Item>)
    requires Exist(local, items)
    ensures |Parcel(codec, local, items)| == |items|
    ensures forall i | 0 <= i < |items| ::
              Parcel(codec, local, items)[i] == AttachmentOf(codec, items[i], Require(local, items[i].value).value)
  {
    if items != [] {
      ParcelAt(codec, local, items[1..]);
    }
  }

  lemma {:induction false} TotalConcat(a: seq<Attachment>, b: seq<Attachment>)
    ensures Total(a + b) == Total(a) + Total(b)
  {
    if b == [] {
      assert a + b == a;
    } else {
      var c := b[..|b| - 1];
      assert a + b == a + c + [b[|b| - 1]] && b == c + [b[|b| - 1]];
      TotalConcat(a, c);
      TotalGrows(a + c, b[|b| - 1]);
      TotalGrows(c, b[|b| - 1]);
    }
  }

  lemma {:induction false} ParcelTotal(codec: Codec, local: Local, items: seq<Item>)
    requires Exist(local, items)
    ensures Total(Parcel(codec, local, items)) == Weight(local, items)
  {
    if items != [] {
      var a := AttachmentOf(codec, items[0], Require(local, items[0].value).value);
      ParcelTotal(codec, local, items[1..]);
      TotalConcat([a], Parcel(codec, local, items[1..]));
      assert [a][..0] == [];
      assert Total([a]) == a.size;
    }
  }

  /** One field: its values are all files and make up the parcel, exactly when the parcel holds
      what the field asks for. */
  lemma FieldAsksFor(codec: Codec, local: Local, slot: Slot, payload: Payload, parcel: seq<Attachment>)
    ensures var these := ItemsOf(slot.name, slot.multiple, FieldValues(payload, slot.name, slot.multiple));
            AsksFor(codec, local, slot, payload, parcel) <==> Exist(local, these) && parcel == Parcel(codec, local, these)
  {
    var raw, these := Get(payload, slot.name), ItemsOf(slot.name, slot.multiple, FieldValues(payload, slot.name, slot.multiple));
    if Exist(local, these) {
      ParcelAt(codec, local, these);
    }
    if AsksFor(codec, local, slot, payload, parcel) {
      assert |parcel| == |these|;
      forall i | 0 <= i < |these|
        ensures Require(local, these[i].value).Some? && parcel[i] == AttachmentOf(codec, these[i], Require(local, these[i].value).value)
      {
      }
    }
  }

  lemma FirstFulfilled(codec: Codec, local: Local, fields: seq<Slot>, payload: Payload, head: seq<Attachment>, tail: seq<Attachment>)
    requires fields != [] && AsksFor(codec, local, fields[0], payload, head)
    requires Exist(local, Items(fields[1..], payload)) && tail == Parcel(codec, local, Items(fields[1..], payload))
    ensures Exist(local, Items(fields, payload)) && head + tail == Parcel(codec, local, Items(fields, payload))
  {
    var these := ItemsOf(fields[0].name, fields[0].multiple, FieldValues(payload, fields[0].name, fields[0].multiple));
    FieldAsksFor(codec, local, fields[0], payload, head);
    ExistBoth(local, these, Items(fields[1..], payload));
    ParcelConcat(codec, local, these, Items(fields[1..], payload));
  }

  lemma ExistBoth(local: Local, a: seq<Item>, b: seq<Item>)
    requires Exist(local, a) && Exist(local, b)
    ensures Exist(local, a + b)
  {
  }

  lemma FulfilsSplit(codec: Codec, local: Local, fields: seq<Slot>, payload: Payload, parcel: seq<Attachment>)
    returns (head: seq<Attachment>, tail: seq<Attachment>)
    requires fields != [] && Fulfils(codec, local, fields, payload, parcel)
    ensures parcel == head + tail && AsksFor(codec, local, fields[0], payload, head) && Fulfils(codec, local, fields[1..], payload, tail)
  {
    var n :| 0 <= n <= |parcel| &&
      AsksFor(codec, local, fields[0], payload, parcel[..n]) && Fulfils(codec, local, fields[1..], payload, parcel[n..]);
    head, tail := parcel[..n], parcel[n..];
  }

  lemma {:induction false} FulfilledIsParcel(codec: Codec, local: Local, fields: seq<Slot>, payload: Payload, parcel: seq<Attachment>)
    requires Fulfils(codec, local, fields, payload, parcel)
    ensures Exist(local, Items(fields, payload)) && parcel == Parcel(codec, local, Items(fields, payload))
    decreases |fields|
  {
    if fields != [] {
      var head, tail := FulfilsSplit(codec, local, fields, payload, parcel);
      FulfilledIsParcel(codec, local, fields[1..], payload, tail);
      FirstFulfilled(codec, local, fields, payload, head, tail);
    }
  }

  lemma {:induction false} ParcelFulfils(codec: Codec, local: Local, fields: seq<Slot>, payload: Payload)
    requires Exist(local, Items(fields, payload))
    ensures Fulfils(codec, local, fields, payload, Parcel(codec, local, Items(fields, payload)))
    decreases |fields|
  {
    if fields != [] {
      var tail := SplitParcel(codec, local, fields, payload);
      var head := Parcel(codec, local, ItemsOf(fields[0].name, fields[0].multiple, FieldValues(payload, fields[0].name, fields[0].multiple)));
      FieldAsksFor(codec, local, fields[0], payload, head);
      ParcelFulfils(codec, local, fields[1..], payload);
      FulfilsJoined(codec, local, fields, payload, head, tail);
    }
  }

  lemma FulfilsJoined(codec: Codec, local: Local, fields: seq<Slot>, payload: Payload, head: seq<Attachment>, tail: seq<Attachment>)
    requires fields != [] && AsksFor(codec, local, fields[0], payload, head) && Fulfils(codec, local, fields[1..], payload, tail)
    ensures Fulfils(codec, local, fields, payload, head + tail)
  {
    assert (head + tail)[..|head|] == head && (head + tail)[|head|..] == tail;
  }

  lemma {:induction false} PoppedIff(codec: Codec, local: Local, fields: seq<Slot>, payload: Payload, key: string)
    requires Exist(local, Items(fields, payload))
    ensures key in Popped(fields, payload) <==> exists a :: a in Parcel(codec, local, Items(fields, payload)) && a.field == key
  {
    if fields != [] {
      var tail := SplitParcel(codec, local, fields, payload);
      var these := ItemsOf(fields[0].name, fields[0].multiple, FieldValues(payload, fields[0].name, fields[0].multiple));
      var head := Parcel(codec, local, these);
      ParcelAt(codec, local, these);
      PoppedIff(codec, local, fields[1..], payload, key);
      assert forall a :: a in Parcel(codec, local, Items(fields, payload)) <==> a in head || a in tail;
      if head != [] {
        assert head[0] in head;
      }
    }
  }

  lemma PreparedLaw(codec: Codec, local: Local, fields: seq<Slot>, payload: Payload, maxBytes: nat)
    ensures SendsWhatIsThere(codec, local, fields, payload, maxBytes, Prepared(codec, local, fields, payload, maxBytes))
  {
    var items := Items(fields, payload);
    var r := Prepared(codec, local, fields, payload, maxBytes);
    AttachIff(codec, local, items, [], maxBytes);
    if r.Ok? {
      PreparedParcel(codec, local, fields, payload, maxBytes);
      ParcelTotal(codec, local, items);
      ParcelFulfils(codec, local, fields, payload);
      forall key ensures key in Popped(fields, payload) <==> exists a :: a in r.value.1 && a.field == key {
        PoppedIff(codec, local, fields, payload, key);
      }
    } else {
      MissingFile(codec, local, items, [], maxBytes);
      if r.error.NoSuchFile? {
        var i :| 0 <= i < |items| && items[i].value == r.error.value;
        var k := ItemNamed(fields, payload, i);
      }
    }
    if parcel :| Fulfils(codec, local, fields, payload, parcel) && Total(parcel) <= maxBytes {
      FulfilledIsParcel(codec, local, fields, payload, parcel);
      ParcelTotal(codec, local, items);
    }
  }

  lemma {:induction false} MissingFile(codec: Codec, local: Local, items: seq<Item>, before: seq<Attachment>, maxBytes: nat)
    ensures var r := Attach(codec, local, items, before, maxBytes);
            r.Err? && r.error.NoSuchFile? ==>
              Require(local, r.error.value).None? && exists i :: 0 <= i < |items| && items[i].value == r.error.value
    decreases |items|
  {
    if items != [] {
      var file := Require(local, items[0].value);
      if file.Some? {
        MissingFile(codec, local, items[1..], before + [AttachmentOf(codec, items[0], file.value)], maxBytes);
      }
    }
  }

  lemma {:induction false} ItemNamed(fields: seq<Slot>, payload: Payload, i: nat) returns (k: nat)
    requires i < |Items(fields, payload)|
    ensures k < |fields| && NamedIn(fields[k], payload, Items(fields, payload)[i].value)
  {
    var these := ItemsOf(fields[0].name, fields[0].multiple, FieldValues(payload, fields[0].name, fields[0].multiple));
    if i < |these| {
      k := 0;
    } else {
      var m := ItemNamed(fields[1..], payload, i - |these|);
      k := m + 1;
    }
  }

  /** The file holds the bytes of the one that `value` names. */
  ghost predicate CopyOf(local: Local, value: Json, file: Written) {
    value.Truthy() && local(value).Some? && file.bytes == local(value).value.bytes
  }

  /** One field after the transfer: a list in a list field has become the list of the paths of
      copies of its elements, each at its own position; any other value that is not falsy, the
      path of its copy; and a field with nothing to send is as it was. */
  ghost predicate RestoredField(local: Local, slot: Slot, payload: Payload, result: Payload, files: seq<Written>) {
    var raw := Get(payload, slot.name);
    if slot.multiple && raw.List? && raw.items != [] then
      && |files| == |raw.items|
      && slot.name in result && result[slot.name].List? && |result[slot.name].items| == |raw.items|
      && forall i | 0 <= i < |files| :: CopyOf(local, raw.items[i], files[i]) && result[slot.name].items[i] == Str(files[i].path)
    else if raw.Truthy() then
      && |files| == 1 && CopyOf(local, raw, files[0])
      && slot.name in result
      && result[slot.name] == if slot.multiple then List([Str(files[0].path)]) else Str(files[0].path)
    else files == [] && SameAt(payload, result, slot.name)
  }

  ghost predicate SameAt(a: Payload, b: Payload, key: string) {
    (key in a <==> key in b) && (key in a ==> a[key] == b[key])
  }

  /** Every field, with the files in the order they were written. */
  ghost predicate Restored(local: Local, fields: seq<Slot>, payload: Payload, result: Payload, files: seq<Written>) {
    if fields == [] then files == []
    else exists n | 0 <= n <= |files| ::
      RestoredField(local, fields[0], payload, result, files[..n]) && Restored(local, fields[1..], payload, result, files[n..])
  }

  lemma FieldRestored(local: Local, slot: Slot, payload: Payload, result: Payload, files: seq<Written>)
    requires var values := FieldValues(payload, slot.name, slot.multiple);
             && Copies(local, values, files)
             && if values != [] then slot.name in result && result[slot.name] == Rebuilt(slot.multiple, files)
                else SameAt(payload, result, slot.name)
    ensures RestoredField(local, slot, payload, result, files)
  {
    var raw, values := Get(payload, slot.name), FieldValues(payload, slot.name, slot.multiple);
    forall i | 0 <= i < |values| ensures CopyOf(local, values[i], files[i]) {
    }
    if values != [] && slot.multiple {
      assert forall i | 0 <= i < |files| :: result[slot.name].items[i] == Str(files[i].path);
      if !raw.List? {
        assert Paths(files) == [Str(files[0].path)];
      }
    }
  }

  lemma {:induction false} RefilledRestored(local: Local, fields: seq<Slot>, payload: Payload, result: Payload, files: seq<Written>)
    requires Refilled(local, fields, payload, result, files)
    requires forall k | 0 <= k < |fields| && FieldValues(payload, fields[k].name, fields[k].multiple) == [] ::
               SameAt(payload, result, fields[k].name)
    ensures Restored(local, fields, payload, result, files)
  {
    if fields != [] {
      var n := |FieldValues(payload, fields[0].name, fields[0].multiple)|;
      FieldRestored(local, fields[0], payload, result, files[..n]);
      RefilledRestored(local, fields[1..], payload, result, files[n..]);
    }
  }

  lemma {:induction false} PoppedAt(fields: seq<Slot>, payload: Payload, k: nat)
    requires DistinctFields(fields) && k < |fields|
    ensures fields[k].name in Popped(fields, payload) <==> FieldValues(payload, fields[k].name, fields[k].multiple) != []
  {
    if k > 0 {
      assert DistinctFields(fields[1..]);
      PoppedAt(fields[1..], payload, k - 1);
    } else {
      NotPopped(fields, payload);
    }
  }

  /** The node's answer to the gateway's parcel, for any table both hold and any limit. */
  ghost predicate Transferred(local: Local, fields: seq<Slot>, payload: Payload, parcel: seq<Attachment>, s: Inbox, maxBytes: nat) {
    if ListsFit(fields, payload) && Total(parcel) <= maxBytes then
      && s.result.Ok?
      && Restored(local, fields, payload, s.result.value, s.files)
      && (forall key | forall k | 0 <= k < |fields| :: fields[k].name != key :: SameAt(payload, s.result.value, key))
      && (forall i, j | 0 <= i < j < |s.files| :: s.files[i].path != s.files[j].path)
    else
      || (s.result == Err(InvalidIndex) && !ListsFit(fields, payload))
      || (s.result == Err(TooMuchReceived) && Total(parcel) > maxBytes)
  }

  lemma ParcelTransferred(codec: Codec, local: Local, fields: seq<Slot>, payload: Payload, root: string, maxBytes: nat)
    requires codec.Lawful() && DistinctFields(fields) && Exist(local, Items(fields, payload))
    ensures var parcel := Parcel(codec, local, Items(fields, payload));
            Transferred(local, fields, payload, parcel,
              Received(codec, fields, parcel, Inbox(Ok(payload - Popped(fields, payload)), 0, []), root, maxBytes), maxBytes)
  {
    forall k | 0 <= k < |fields| ensures Allowed(fields, fields[k].name) == Some(fields[k].multiple) {
      AllowedAt(fields, k);
    }
    var s := Inbox(Ok(payload - Popped(fields, payload)), 0, []);
    ParcelTotal(codec, local, Items(fields, payload));
    if Weight(local, Items(fields, payload)) <= maxBytes && ListsFit(fields, payload) {
      var files := ReceiveFields(codec, local, fields, fields, payload, s, root, maxBytes);
      PathsDiffer(codec, fields, s.result.value, Parcel(codec, local, Items(fields, payload)), root, maxBytes);
      assert [] + files == files;
      DeliveredRestored(local, fields, payload, s.result.value,
                        Received(codec, fields, Parcel(codec, local, Items(fields, payload)), s, root, maxBytes).result.value, files);
    } else {
      FieldsKnown(fields, fields, payload);
      FieldsInRange(fields, payload);
      ReceiveHonestIff(codec, local, fields, Items(fields, payload), s, root, maxBytes);
    }
  }

  lemma DeliveredRestored(local: Local, fields: seq<Slot>, payload: Payload, remote: Payload, result: Payload, files: seq<Written>)
    requires DistinctFields(fields) && remote == payload - Popped(fields, payload)
    requires Refilled(local, fields, payload, result, files) && SameElsewhere(remote, result, Popped(fields, payload))
    ensures Restored(local, fields, payload, result, files)
    ensures forall key | forall k | 0 <= k < |fields| :: fields[k].name != key :: SameAt(payload, result, key)
  {
    forall k | 0 <= k < |fields| && FieldValues(payload, fields[k].name, fields[k].multiple) == []
      ensures SameAt(payload, result, fields[k].name)
    {
      PoppedAt(fields, payload, k);
    }
    RefilledRestored(local, fields, payload, result, files);
    forall key | forall k | 0 <= k < |fields| :: fields[k].name != key ensures SameAt(payload, result, key) {
      NamedElsewhere(fields, payload, key);
    }
  }

  /** The transfer law. When the gateway prepares a payload, the node accepts the request
      exactly when no list holds more than sixteen values and the files together are within its
      own limit. It then hands its adapter the payload with every value that names a file
      replaced, at its own field and position, by the path of a file with the same bytes; every
      other key is as it was; and no two paths are the same. */
  lemma TransferRoundTrip(codec: Codec, local: Local, capability: string, payload: Payload, sendLimit: nat, receiveLimit: nat, root: string)
    requires codec.Lawful()
    requires Prepared(codec, local, AttachmentFields(capability), payload, sendLimit).Ok?
    ensures var fields := AttachmentFields(capability);
            var (remoteInput, parcel) := Prepared(codec, local, fields, payload, sendLimit).value;
            && Fulfils(codec, local, fields, payload, parcel)
            && LeavesOut(payload, remoteInput, parcel)
            && Transferred(local, fields, payload, parcel,
                 Received(codec, fields, parcel, Inbox(Ok(remoteInput), 0, []), root, receiveLimit), receiveLimit)
  {
    TableDistinct(capability);
    PreparedLaw(codec, local, AttachmentFields(capability), payload, sendLimit);
    PreparedParcel(codec, local, AttachmentFields(capability), payload, sendLimit);
    ParcelTransferred(codec, local, AttachmentFields(capability), payload, root, receiveLimit);
  }

  lemma TableDistinct(capability: string)
    ensures DistinctFields(AttachmentFields(capability))
  {
    assert "imagePath" != "imagePaths";
  }

  // ----- The artifact on its way back -----

  /** What `artifactPath` names, seen from the node's output directory. */
  datatype Output = Outside | NotAFile | OutputFile(file: File)

  datatype PackError = OutsideOutput | NoArtifact | ArtifactTooLarge

  function Packed(codec: Codec, resolve: Json -> Output, result: Payload, maxBytes: nat): Result<Payload, PackError> {
    if !Get(result, "artifactPath").Truthy() then Ok(result)
    else
      match resolve(result["artifactPath"])
      case Outside => Err(OutsideOutput)
      case NotAFile => Err(NoArtifact)
      case OutputFile(file) =>
        if |file.bytes| > maxBytes then Err(ArtifactTooLarge)
        else Ok((result - {"artifactPath"})["artifact" := Dict(map[
          "name" := Str(file.name),
          "size" := Num(|file.bytes|),
          "sha256" := Str(codec.sha256(file.bytes)),
          "dataBase64" := Str(codec.encode(file.bytes))])])
  }

  /** Packing succeeds exactly when there is nothing to pack, or the adapter's path names a file of
      its output directory within the limit; an error says which of these is not so. */
  lemma PackedIff(codec: Codec, resolve: Json -> Output, result: Payload, maxBytes: nat)
    ensures var r := Packed(codec, resolve, result, maxBytes);
            if "artifactPath" in result && result["artifactPath"].Truthy() then
              var found := resolve(result["artifactPath"]);
              && (r.Ok? <==> found.OutputFile? && |found.file.bytes| <= maxBytes)
              && (r == Err(OutsideOutput) <==> found.Outside?)
              && (r == Err(NoArtifact) <==> found.NotAFile?)
            else r == Ok(result)
  {
  }

  /** The node's side: copies the result and edits the copy. */
  method PackResultArtifact(codec: Codec, resolve: Json -> Output, result: Payload, maxBytes: nat)
    returns (r: Result<Payload, PackError>)
    ensures r == Packed(codec, resolve, result, maxBytes)
  {
    if !Get(result, "artifactPath").Truthy() {
      return Ok(result);
    }
    var found := resolve(result["artifactPath"]);
    if found.Outside? {
      return Err(OutsideOutput);
    }
    if found.NotAFile? {
      return Err(NoArtifact);
    }
    var data := found.file.bytes;
    if |data| > maxBytes {
      return Err(ArtifactTooLarge);
    }
    var packed := result - {"artifactPath"};
    packed := packed["artifact" := Dict(map[
      "name" := Str(found.file.name),
      "size" := Num(|data|),
      "sha256" := Str(codec.sha256(data)),
      "dataBase64" := Str(codec.encode(data))])];
    r := Ok(packed);
  }

  datatype UnpackError = ArtifactInvalid | ArtifactOversized | ArtifactMismatch | InvalidRequestId | SizeNotANumber

  datatype Unpacking = Unpacking(result: Result<Payload, UnpackError>, files: seq<Written>)

  /** `str(value or default)` */
  function TextOr(codec: Codec, value: Json, default: string): string {
    if !value.Truthy() then default else if value.Str? then value.text else codec.text(value)
  }

  /** `outputPath` is the request's directory joined with the cleaned name, or none when the
      request id is not acceptable. */
  function Unpacked(codec: Codec, result: Payload, outputPath: string -> Option<string>, maxBytes: nat): Unpacking {
    if !Get(result, "artifact").Dict? then Unpacking(Ok(result), [])
    else
      var artifact := result["artifact"].entries;
      match codec.decode(TextOr(codec, Get(artifact, "dataBase64"), ""))
      case None => Unpacking(Err(ArtifactInvalid), [])
      case Some(data) =>
        if |data| > maxBytes then Unpacking(Err(ArtifactOversized), [])
        else if "size" in artifact && codec.integer(artifact["size"]).None? then Unpacking(Err(SizeNotANumber), [])
        else if ("size" in artifact && codec.integer(artifact["size"]) != Some(|data|))
          || TextOr(codec, Get(artifact, "sha256"), "") != codec.sha256(data)
        then Unpacking(Err(ArtifactMismatch), [])
        else
          match outputPath(TextOr(codec, Get(artifact, "name"), "artifact.bin"))
          case None => Unpacking(Err(InvalidRequestId), [])
          case Some(path) => Unpacking(Ok((result - {"artifact"})["artifactPath" := Str(path)]), [Written(path, data)])
  }

  /** The gateway's side: checks size and digest, writes the file, edits a copy of the result. */
  method UnpackDesktopArtifact(codec: Codec, result: Payload, outputPath: string -> Option<string>, maxBytes: nat)
    returns (r: Result<Payload, UnpackError>, files: seq<Written>)
    ensures Unpacking(r, files) == Unpacked(codec, result, outputPath, maxBytes)
  {
    files := [];
    if !Get(result, "artifact").Dict? {
      return Ok(result), files;
    }
    var artifact := result["artifact"].entries;
    var decoded := codec.decode(TextOr(codec, Get(artifact, "dataBase64"), ""));
    if decoded.None? {
      return Err(ArtifactInvalid), files;
    }
    var data := decoded.value;
    if |data| > maxBytes {
      return Err(ArtifactOversized), files;
    }
    var size := if "size" in artifact then codec.integer(artifact["size"]) else Some(|data|);
    if size.None? {
      return Err(SizeNotANumber), files;
    }
    if size.value != |data| || TextOr(codec, Get(artifact, "sha256"), "") != codec.sha256(data) {
      return Err(ArtifactMismatch), files;
    }
    var path := outputPath(TextOr(codec, Get(artifact, "name"), "artifact.bin"));
    if path.None? {
      return Err(InvalidRequestId), files;
    }
    files := [Written(path.value, data)];
    r := Ok((result - {"artifact"})["artifactPath" := Str(path.value)]);
  }

  /** Unpacking undoes packing: the gateway writes exactly the bytes of the node's file, and
      hands on the adapter's result with its path in place of the node's, exactly when the bytes
      are within its own limit and it accepts the request id. */
  lemma ArtifactRoundTrip(codec: Codec, resolve: Json -> Output, result: Payload, packLimit: nat, outputPath: string -> Option<string>, unpackLimit: nat)
    requires codec.Lawful()
    requires Packed(codec, resolve, result, packLimit).Ok?
    ensures var u := Unpacked(codec, Packed(codec, resolve, result, packLimit).value, outputPath, unpackLimit);
            if Get(result, "artifactPath").Truthy() then
              var file := resolve(result["artifactPath"]).file;
              var path := outputPath(if file.name == "" then "artifact.bin" else file.name);
              if |file.bytes| > unpackLimit then u == Unpacking(Err(ArtifactOversized), [])
              else if path.None? then u == Unpacking(Err(InvalidRequestId), [])
              else
                && u.files == [Written(path.value, file.bytes)]
                && u.result == Ok((result - {"artifact"})["artifactPath" := Str(path.value)])
            else !Get(result, "artifact").Dict? ==> u == Unpacking(Ok(result), [])
  {
    if Get(result, "artifactPath").Truthy() {
      var file := resolve(result["artifactPath"]).file;
      var packed := Packed(codec, resolve, result, packLimit).value;
      var artifact := packed["artifact"].entries;
      EmptyTexts(codec, file.bytes);
      assert TextOr(codec, artifact["name"], "artifact.bin") == if file.name == "" then "artifact.bin" else file.name;
      var path := outputPath(if file.name == "" then "artifact.bin" else file.name);
      if path.Some? {
        assert (packed - {"artifact"})["artifactPath" := Str(path.value)] == (result - {"artifact"})["artifactPath" := Str(path.value)];
      }
    }
  }

  /** A field that happens to be the empty string reads back as the empty string. */
  lemma EmptyTexts(codec: Codec, bytes: Bytes)
    requires codec.Lawful()
    ensures codec.decode(TextOr(codec, Str(codec.encode(bytes)), "")) == Some(bytes)
    ensures TextOr(codec, Str(codec.sha256(bytes)), "") == codec.sha256(bytes)
  {
    assert codec.decode(codec.encode(bytes)) == Some(bytes);
  }

  /** What the gateway says of an artifact it does not take is so. */
  ghost predicate Faulty(codec: Codec, artifact: Payload, outputPath: string -> Option<string>, maxBytes: nat, error: UnpackError) {
    var decoded := codec.decode(TextOr(codec, Get(artifact, "dataBase64"), ""));
    match error
    case ArtifactInvalid => decoded.None?
    case ArtifactOversized => decoded.Some? && |decoded.value| > maxBytes
    case SizeNotANumber => "size" in artifact && codec.integer(artifact["size"]).None?
    case ArtifactMismatch =>
      && decoded.Some?
      && (("size" in artifact && codec.integer(artifact["size"]) != Some(|decoded.value|))
          || TextOr(codec, Get(artifact, "sha256"), "") != codec.sha256(decoded.value))
    case InvalidRequestId => outputPath(TextOr(codec, Get(artifact, "name"), "artifact.bin")).None?
  }

  /** The gateway's law, for every result: without an artifact it is handed on as it is; an
      artifact is taken exactly when none of the faults is so, and then the one file written holds
      its decoded bytes; nothing is written otherwise, and the fault reported is one it has. */
  lemma UnpackedIff(codec: Codec, result: Payload, outputPath: string -> Option<string>, maxBytes: nat)
    ensures var u := Unpacked(codec, result, outputPath, maxBytes);
            if "artifact" in result && result["artifact"].Dict? then
              var artifact := result["artifact"].entries;
              && (u.result.Ok? <==> forall error :: !Faulty(codec, artifact, outputPath, maxBytes, error))
              && (u.result.Err? ==> u.files == [] && Faulty(codec, artifact, outputPath, maxBytes, u.result.error))
              && (u.result.Ok? ==>
                    && |u.files| == 1
                    && Some(u.files[0].path) == outputPath(TextOr(codec, Get(artifact, "name"), "artifact.bin"))
                    && codec.decode(TextOr(codec, Get(artifact, "dataBase64"), "")) == Some(u.files[0].bytes)
                    && "artifactPath" in u.result.value && u.result.value["artifactPath"] == Str(u.files[0].path)
                    && "artifact" !in u.result.value
                    && forall key | key != "artifact" && key != "artifactPath" :: SameAt(result, u.result.value, key))
            else u == Unpacking(Ok(result), [])
  {
    if "artifact" in result && result["artifact"].Dict? {
      var artifact := result["artifact"].entries;
      var u := Unpacked(codec, result, outputPath, maxBytes);
      assert Faulty(codec, artifact, outputPath, maxBytes, ArtifactInvalid) ==> u.result.Err?;
      assert Faulty(codec, artifact, outputPath, maxBytes, ArtifactOversized) ==> u.result.Err?;
      assert Faulty(codec, artifact, outputPath, maxBytes, SizeNotANumber) ==> u.result.Err?;
      assert Faulty(codec, artifact, outputPath, maxBytes, ArtifactMismatch) ==> u.result.Err?;
      assert Faulty(codec, artifact, outputPath, maxBytes, InvalidRequestId) ==> u.result.Err?;
      assert "artifact"[0..] != "artifactPath"[0..] by {
        assert |"artifact"| != |"artifactPath"|;
      }
    }
  }

  /** Nothing is written unless the bytes fit and carry their own digest. */
  lemma UnpackWritesOnlyChecked(codec: Codec, result: Payload, outputPath: string -> Option<string>, maxBytes: nat)
    ensures var u := Unpacked(codec, result, outputPath, maxBytes);
            && BytesIn(u.files) <= maxBytes
            && (u.result.Err? ==> u.files == [])
            && forall w | w in u.files ::
                 TextOr(codec, Get(Get(result, "artifact").entries, "sha256"), "") == codec.sha256(w.bytes)
  {
    var u := Unpacked(codec, result, outputPath, maxBytes);
    if u.files != [] {
      assert u.files[..0] == [];
    }
  }
}
