/** Adding a device: the inventory file, the inventory in memory, its hash and the policy
    built from it change together or not at all. */
module AddDevice {
  import opened Prelude

  // ----- documents -----

  /** JSON with the order of object keys. */
  datatype Json = Object(fields: seq<(string, Json)>) | Array(items: seq<Json>) | Scalar(text: string) | Number(n: nat)

  function Get(fields: seq<(string, Json)>, key: string): Option<Json> {
    if fields == [] then None else if fields[0].0 == key then Some(fields[0].1) else Get(fields[1..], key)
  }

  /** Change the value of a key in its place. */
  function Put(fields: seq<(string, Json)>, key: string, value: Json): seq<(string, Json)> {
    if fields == [] then []
    else if fields[0].0 == key then [(key, value)] + fields[1..]
    else [fields[0]] + Put(fields[1..], key, value)
  }

  datatype Error =
    | InventoryReadonly | MissingArguments(names: seq<string>) | InvalidDeviceName | DeviceExists(name: string)
    | InvalidDeviceIp | InvalidDevicePort | PasswordAuthDisabled | Validation
    | InventoryWrite | InventoryRead | InventoryParse | InventoryDriftedOnDisk | PolicyInvalid

  /** A bare map takes the device at the top, an envelope inside `devices`. */
  function InsertDevice(inv: Json, name: string, entry: Json): Result<Json, Error> {
    if !inv.Object? then Err(InventoryParse)
    else
      match Get(inv.fields, "devices")
      case Some(Object(devices)) =>
        if Get(devices, name).Some? then Err(DeviceExists(name))
        else Ok(Object(Put(inv.fields, "devices", Object(devices + [(name, entry)]))))
      case Some(_) => Err(InventoryParse)
      case None =>
        if Get(inv.fields, name).Some? then Err(DeviceExists(name)) else Ok(Object(inv.fields + [(name, entry)]))
  }

  /** Where the devices are, in either shape. */
  function Entries(inv: Json): Option<seq<(string, Json)>> {
    if !inv.Object? then None
    else
      match Get(inv.fields, "devices")
      case Some(Object(devices)) => Some(devices)
      case Some(_) => None
      case None => Some(inv.fields)
  }

  /** Everything that is not a device: the envelope with its devices taken out. */
  function Around(inv: Json): Json {
    if inv.Object? && Get(inv.fields, "devices").Some? then Object(Put(inv.fields, "devices", Object([])))
    else if inv.Object? then Object([])
    else inv
  }

  lemma {:induction false} GetAppend(a: seq<(string, Json)>, b: seq<(string, Json)>, key: string)
    ensures Get(a + b, key) == if Get(a, key).Some? then Get(a, key) else Get(b, key)
  {
    if a == [] {
      assert a + b == b;
    } else {
      assert (a + b)[1..] == a[1..] + b;
      GetAppend(a[1..], b, key);
    }
  }

  lemma {:induction false} PutThenGet(fields: seq<(string, Json)>, key: string, value: Json, other: Json)
    requires Get(fields, key).Some?
    ensures Get(Put(fields, key, value), key) == Some(value)
    ensures Put(Put(fields, key, value), key, other) == Put(fields, key, other)
    ensures |Put(fields, key, value)| == |fields|
    ensures forall k :: 0 <= k < |fields| ==> Put(fields, key, value)[k].0 == fields[k].0
  {
    if fields[0].0 != key {
      PutThenGet(fields[1..], key, value, other);
    }
  }

  /** The devices with one more at the end, and everything else untouched. */
  predicate IsAppend(inv: Json, name: string, entry: Json, out: Json) {
    && Entries(inv).Some? && Get(Entries(inv).value, name).None?
    && Entries(out) == Some(Entries(inv).value + [(name, entry)]) && Around(out) == Around(inv)
  }

  /** An insertion appends the device, unless a bare map is given a device called
      `devices`, which turns the new device into the envelope's content. */
  lemma InsertAppends(inv: Json, name: string, entry: Json)
    requires InsertDevice(inv, name, entry).Ok?
    ensures var out := InsertDevice(inv, name, entry).value;
            && (IsAppend(inv, name, entry, out) <==> name != "devices" || Get(inv.fields, "devices").Some?)
            && (name == "devices" && Get(inv.fields, "devices").None? && entry.Object? ==> Entries(out) == Some(entry.fields))
  {
    var devices := Get(inv.fields, "devices");
    if devices.Some? {
      PutThenGet(inv.fields, "devices", Object(devices.value.fields + [(name, entry)]), Object([]));
    } else {
      GetAppend(inv.fields, [(name, entry)], "devices");
      if name == "devices" && entry.Object? { NotItsOwnField(entry, inv.fields, name); }
    }
  }

  lemma NotItsOwnField(entry: Json, fields: seq<(string, Json)>, name: string)
    requires entry.Object?
    ensures entry.fields != fields + [(name, entry)]
  {
    var grown := fields + [(name, entry)];
    assert grown[|fields|].1 == entry;
  }

  /** Such a device: the empty bare map then holds `ip` and the other fields of the device
      as its devices. */
  lemma DeviceCalledDevices(r: ResolvedAdd)
    requires r.name == "devices"
    ensures var inv, entry := Object([]), EntryOf(r);
            && InsertDevice(inv, r.name, entry).Ok?
            && !IsAppend(inv, r.name, entry, InsertDevice(inv, r.name, entry).value)
            && Entries(InsertDevice(inv, r.name, entry).value) == Some(entry.fields)
  {
    InsertAppends(Object([]), r.name, EntryOf(r));
  }

  /** And that is the whole document: no other has those devices and that around them. */
  lemma NothingElseIsThere(a: Json, b: Json)
    requires Entries(a).Some? && Entries(a) == Entries(b) && Around(a) == Around(b)
    ensures a == b
  {
    var devices := Entries(a).value;
    if Get(a.fields, "devices").Some? {
      PutThenGet(a.fields, "devices", Object([]), Object(devices));
      PutSame(a.fields, "devices");
    }
    if Get(b.fields, "devices").Some? {
      PutThenGet(b.fields, "devices", Object([]), Object(devices));
      PutSame(b.fields, "devices");
    }
  }

  lemma {:induction false} PutSame(fields: seq<(string, Json)>, key: string)
    requires Get(fields, key).Some?
    ensures Put(fields, key, Get(fields, key).value) == fields && |fields| > 0
  {
    if fields[0].0 == key {
      assert fields == [fields[0]] + fields[1..] && fields[0] == (key, Get(fields, key).value);
    } else {
      PutSame(fields[1..], key);
      assert fields == [fields[0]] + fields[1..];
    }
  }

  /** An insertion is refused exactly when the name is taken or the document has no place
      for a device. */
  lemma InsertRefusals(inv: Json, name: string, entry: Json)
    ensures var r := InsertDevice(inv, name, entry);
            && (r.Err? <==> Entries(inv).None? || Get(Entries(inv).value, name).Some?)
            && (r.Err? ==> r.error == if Entries(inv).None? then InventoryParse else DeviceExists(name))
  {}

  // ----- requests -----

  datatype Auth = SshKey(path: string) | Password(secret: string)

  datatype Args = Args(
    name: Option<string>, ip: Option<string>, port: Option<nat>, username: Option<string>, auth: Option<Auth>)

  datatype ResolvedAdd = ResolvedAdd(name: string, ip: string, port: nat, username: string, auth: Auth)

  function AuthJson(a: Auth): Json {
    match a
    case SshKey(path) => Object([("type", Scalar("ssh_key")), ("private_key_path", Scalar(path))])
    case Password(secret) => Object([("type", Scalar("password")), ("password", Scalar(secret))])
  }

  function EntryOf(r: ResolvedAdd): Json {
    Object([("ip", Scalar(r.ip)), ("port", Number(r.port)), ("username", Scalar(r.username)), ("auth", AuthJson(r.auth))])
  }

  /** The stored entry reads back as what was asked for. */
  lemma EntryReadsBack(r: ResolvedAdd)
    ensures var e := EntryOf(r);
            && e.Object? && Get(e.fields, "ip") == Some(Scalar(r.ip)) && Get(e.fields, "port") == Some(Number(r.port))
            && Get(e.fields, "username") == Some(Scalar(r.username))
            && Get(e.fields, "auth").Some? && ReadAuth(Get(e.fields, "auth").value) == Some(r.auth)
  {
    KeysApart();
    var e, a := EntryOf(r).fields, AuthJson(r.auth).fields;
    GetAt(e, 0);
    GetAt(e, 1);
    GetAt(e, 2);
    GetAt(e, 3);
    GetAt(a, 0);
    GetAt(a, 1);
  }

  /** The first field of a name is the one found. */
  lemma {:induction false} GetAt(fields: seq<(string, Json)>, k: nat)
    requires k < |fields| && forall j :: 0 <= j < k ==> fields[j].0 != fields[k].0
    ensures Get(fields, fields[k].0) == Some(fields[k].1)
  {
    if k > 0 {
      GetAt(fields[1..], k - 1);
    }
  }

  lemma KeysApart()
    ensures "ip" != "port" && "ip" != "username" && "ip" != "auth" && "port" != "username" && "port" != "auth"
    ensures "username" != "auth" && "type" != "private_key_path" && "type" != "password" && "ssh_key" != "password"
  {
    assert |"ip"| == 2 && |"port"| == 4 && |"username"| == 8 && |"auth"| == 4 && |"type"| == 4;
    assert |"private_key_path"| == 16 && |"password"| == 8 && |"ssh_key"| == 7 && "port"[0] == 'p' && "auth"[0] == 'a';
  }

  /** How the loader tells the two kinds of credentials apart. */
  function ReadAuth(j: Json): Option<Auth> {
    if !j.Object? then None
    else if Get(j.fields, "type") == Some(Scalar("ssh_key")) then
      var path := Get(j.fields, "private_key_path");
      if path.Some? && path.value.Scalar? then Some(SshKey(path.value.text)) else None
    else if Get(j.fields, "type") == Some(Scalar("password")) then
      var secret := Get(j.fields, "password");
      if secret.Some? && secret.value.Scalar? then Some(Password(secret.value.text)) else None
    else None
  }

  type Inventory = map<string, Json>
  type Policy = nat

  /** The code this model does not look into: JSON text, SHA-256, the inventory loader,
      the policy compiler and the lexical checks. */
  datatype Env = Env(
    parse: string -> Option<Json>,
    render: Json -> string,
    hash: string -> nat,
    load: string -> Option<Inventory>,
    build: Inventory -> Option<Policy>,
    validName: string -> bool, validHost: string -> bool, validUser: string -> bool, validPath: string -> bool)

  /** What is staged, and what memory is to hold once it is in place. */
  datatype Prepared = Prepared(text: string, inventory: Inventory, policy: Policy)

  const SPECIAL := "_blocklist_defaults"

  /** What is assumed of it: printed JSON reads back, digests do not collide and are never
      the all-zero one, and the loader takes only documents whose devices are objects. */
  ghost predicate Trusted(env: Env) {
    && (forall j :: env.parse(env.render(j)) == Some(j))
    && (forall a, b :: env.hash(a) == env.hash(b) ==> a == b)
    && (forall a :: env.hash(a) != 0)
    && (forall a :: env.load(a).Some? && env.parse(a).Some? && Entries(env.parse(a).value).Some? ==>
                      forall d :: d in Entries(env.parse(a).value).value && d.0 != SPECIAL ==>
                                    d.1.Object? && d.0 in env.load(a).value)
  }

  function Missing(args: Args): seq<string> {
    (if args.name.None? then ["device_name"] else []) + (if args.ip.None? then ["device_ip"] else [])
    + (if args.username.None? then ["username"] else []) + (if args.auth.None? then ["auth"] else [])
  }

  /** Exactly the arguments that are not there, by the names callers know. */
  lemma MissingAre(args: Args, n: string)
    ensures n in Missing(args) <==>
            || (n == "device_name" && args.name.None?) || (n == "device_ip" && args.ip.None?)
            || (n == "username" && args.username.None?) || (n == "auth" && args.auth.None?)
  {}

  /** A complete request, the port defaulted. */
  function Resolved(args: Args): (r: ResolvedAdd)
    requires Missing(args) == []
    ensures Some(r.name) == args.name && Some(r.ip) == args.ip && Some(r.username) == args.username && Some(r.auth) == args.auth
    ensures r.port == match args.port case Some(p) => p case None => 22
  {
    NothingMissing(args);
    ResolvedAdd(args.name.value, args.ip.value, if args.port.Some? then args.port.value else 22,
                args.username.value, args.auth.value)
  }

  /** The errors that come up before the file is parsed. */
  predicate BeforeParsing(e: Error) { e == InventoryWrite || e == InventoryRead || e == InventoryDriftedOnDisk }

  class DeviceManager {
    const env: Env
    const readonly: bool
    const allowPassword: bool
    const hasPath: bool
    /** The inventory file, if there is one. */
    var disk: Option<string>
    var inventory: Inventory
    var inventoryHash: nat
    var policy: Policy
    /** The bytes the inventory in memory came from. */
    ghost var loaded: string

    ghost predicate Valid()
      reads this
    {
      && Trusted(env)
      && inventoryHash == env.hash(loaded)
      && env.load(loaded) == Some(inventory)
      && env.build(inventory) == Some(policy)
    }

    /** File and memory agree. */
    ghost predicate InStep()
      reads this
    {
      disk == Some(loaded)
    }

    /** As at startup, from a file that loads. */
    constructor (env: Env, readonly: bool, allowPassword: bool, hasPath: bool,
                 bytes: string, inventory: Inventory, policy: Policy)
      requires Trusted(env) && env.load(bytes) == Some(inventory) && env.build(inventory) == Some(policy)
      ensures Valid() && InStep() && loaded == bytes && this.env == env
    {
      this.env, this.readonly, this.allowPassword, this.hasPath := env, readonly, allowPassword, hasPath;
      this.disk, this.loaded := Some(bytes), bytes;
      this.inventory, this.inventoryHash, this.policy := inventory, env.hash(bytes), policy;
    }

    /** Check a request without the lock, against the inventory as it is now. The first
        check that fails is reported. */
    method Validate(args: Args) returns (r: Result<ResolvedAdd, Error>)
      ensures r.Ok? ==> Missing(args) == [] && r.value == Resolved(args)
      ensures r == Err(InventoryReadonly) <==> readonly
      ensures r.Err? && r.error.MissingArguments? <==> !readonly && Missing(args) != []
      ensures r.Err? && r.error.MissingArguments? ==> r.error.names == Missing(args)
      ensures !readonly && Missing(args) == [] ==>
                var q := Resolved(args);
                var named, placed := env.validName(q.name), q.name !in inventory && env.validHost(q.ip) && 1 <= q.port <= 65535;
                && (r.Ok? <==> named && placed && AuthAllowed(q.auth) && AuthWritten(q.auth) && env.validUser(q.username))
                && (r == Err(InvalidDeviceName) <==> !named)
                && (r == Err(DeviceExists(q.name)) <==> named && q.name in inventory)
                && (r == Err(InvalidDeviceIp) <==> named && q.name !in inventory && !env.validHost(q.ip))
                && (r == Err(InvalidDevicePort) <==>
                    named && q.name !in inventory && env.validHost(q.ip) && (q.port < 1 || q.port > 65535))
                && (r == Err(PasswordAuthDisabled) <==> named && placed && !AuthAllowed(q.auth))
                && (r == Err(Validation) <==>
                    named && placed && AuthAllowed(q.auth) && (!AuthWritten(q.auth) || !env.validUser(q.username)))
    {
      if readonly { return Err(InventoryReadonly); }
      if Missing(args) != [] { return Err(MissingArguments(Missing(args))); }
      assert args.name.Some? && args.ip.Some? && args.username.Some? && args.auth.Some? by { NothingMissing(args); }
      var name := args.name.value;
      if !env.validName(name) { return Err(InvalidDeviceName); }
      if name in inventory { return Err(DeviceExists(name)); }
      if !env.validHost(args.ip.value) { return Err(InvalidDeviceIp); }
      var port := if args.port.Some? then args.port.value else 22;
      if !(1 <= port <= 65535) { return Err(InvalidDevicePort); }
      if args.auth.value.Password? && !allowPassword { return Err(PasswordAuthDisabled); }
      if args.auth.value.SshKey? && !env.validPath(args.auth.value.path) { return Err(Validation); }
      if !env.validUser(args.username.value) { return Err(Validation); }
      return Ok(ResolvedAdd(name, args.ip.value, port, args.username.value, args.auth.value));
    }

    /** A password only where passwords are enabled. */
    predicate AuthAllowed(a: Auth) { a.SshKey? || allowPassword }

    predicate AuthWritten(a: Auth) { a.Password? || env.validPath(a.path) }

    function HashFile(): nat
      reads this
    {
      if disk.Some? then env.hash(disk.value) else 0
    }

    /** The part under the write lock: stage, validate, persist, swap. Any file operation
        may fail. Success appends exactly this device to the file it was checked against;
        an error changes nothing. */
    method AddLocked(r: ResolvedAdd) returns (added: Result<(), Error>)
      requires Valid()
      modifies this`disk, this`inventory, this`inventoryHash, this`policy, this`loaded
      ensures Valid()
      ensures added.Err? ==>
                && disk == old(disk) && inventory == old(inventory) && inventoryHash == old(inventoryHash)
                && policy == old(policy) && loaded == old(loaded)
      ensures added.Ok? ==> old(InStep()) && InStep() && Appended(env, old(loaded), loaded, r)
      ensures !old(InStep()) ==> added.Err? && BeforeParsing(added.error)
      ensures added == Err(InventoryDriftedOnDisk) ==> !old(InStep())
      ensures added.Err? && !BeforeParsing(added.error) ==> Refuses(env, old(loaded), r, added.error)
    {
      if !hasPath { return Err(InventoryWrite); }
      var hashFails: bool, readFails: bool, rehashFails: bool, persistFails: bool := *, *, *, *;
      if hashFails { return Err(InventoryRead); }
      if HashFile() != inventoryHash { return Err(InventoryDriftedOnDisk); }
      if readFails { return Err(InventoryRead); }
      var next := Prepare(disk.value, r);
      if next.Err? { return Err(next.error); }
      if rehashFails { return Err(InventoryRead); }
      if persistFails { return Err(InventoryWrite); }
      disk, loaded := Some(next.value.text), next.value.text;
      inventory, inventoryHash, policy := next.value.inventory, env.hash(next.value.text), next.value.policy;
      return Ok(());
    }

    /** The file with the device in it, staged, loaded again and compiled. */
    method Prepare(text: string, r: ResolvedAdd) returns (next: Result<Prepared, Error>)
      requires Trusted(env)
      ensures next.Ok? ==>
                && Appended(env, text, next.value.text, r)
                && env.load(next.value.text) == Some(next.value.inventory)
                && env.build(next.value.inventory) == Some(next.value.policy)
      ensures next.Err? ==> next.error == InventoryWrite || Refuses(env, text, r, next.error)
    {
      var stageFails: bool := *;
      var value := env.parse(text);
      if value.None? { return Err(InventoryParse); }
      var updated := InsertDevice(value.value, r.name, EntryOf(r));
      if updated.Err? { return Err(updated.error); }
      if stageFails { return Err(InventoryWrite); }
      var staged := env.render(updated.value);
      var newInventory := env.load(staged);
      if newInventory.None? { return Err(InventoryParse); }
      var newPolicy := env.build(newInventory.value);
      if newPolicy.None? { return Err(PolicyInvalid); }
      LoadedInsertAppends(env, text, r);
      return Ok(Prepared(staged, newInventory.value, newPolicy.value));
    }
  }

  lemma NothingMissing(args: Args)
    requires Missing(args) == []
    ensures args.name.Some? && args.ip.Some? && args.username.Some? && args.auth.Some?
  {
    assert |Missing(args)| == 0;
  }

  /** Why an addition to this text is refused: it has no place for a device or has one of
      that name, or what it would become does not load or makes no policy. */
  ghost predicate Refuses(env: Env, before: string, r: ResolvedAdd, e: Error) {
    var doc := env.parse(before);
    if doc.None? then e == InventoryParse
    else if Entries(doc.value).None? then e == InventoryParse
    else if Get(Entries(doc.value).value, r.name).Some? then e == DeviceExists(r.name)
    else
      var out := InsertDevice(doc.value, r.name, EntryOf(r));
      out.Ok? && (var after := env.load(env.render(out.value));
                  if after.None? then e == InventoryParse else e == PolicyInvalid && env.build(after.value).None?)
  }

  /** The second text is the first with this device appended to its devices, and is not
      otherwise different. */
  ghost predicate Appended(env: Env, before: string, after: string, r: ResolvedAdd) {
    && env.parse(before).Some? && env.parse(after).Some?
    && IsAppend(env.parse(before).value, r.name, EntryOf(r), env.parse(after).value)
  }

  /** What loads again after an insertion is the append: a device called `devices` in a
      bare map does not load, so it never gets that far. */
  lemma LoadedInsertAppends(env: Env, before: string, r: ResolvedAdd)
    requires Trusted(env) && env.parse(before).Some?
    requires InsertDevice(env.parse(before).value, r.name, EntryOf(r)).Ok?
    requires env.load(env.render(InsertDevice(env.parse(before).value, r.name, EntryOf(r)).value)).Some?
    ensures Appended(env, before, env.render(InsertDevice(env.parse(before).value, r.name, EntryOf(r)).value), r)
  {
    var inv := env.parse(before).value;
    var out := InsertDevice(inv, r.name, EntryOf(r)).value;
    InsertAppends(inv, r.name, EntryOf(r));
    assert env.parse(env.render(out)) == Some(out);
    assert EntryOf(r).fields[0] == ("ip", Scalar(r.ip)) && EntryOf(r).fields[0] in EntryOf(r).fields;
    assert "ip" != SPECIAL by { assert |"ip"| != |SPECIAL|; }
    if r.name == "devices" && Get(inv.fields, "devices").None? {
      assert false;
    }
  }

  // ----- racing requests -----

  function EntriesOf(added: seq<ResolvedAdd>): seq<(string, Json)> { seq(|added|,
    i requires 0 <= i < |added| => (added[i].name, EntryOf(added[i]))) }

  /** What these additions, in this order, made of a file: every device that was there is
      still there, in its place and unchanged, and each addition follows in turn, under a
      name nothing before it had. */
  ghost predicate Grown(env: Env, before: string, after: string, added: seq<ResolvedAdd>) {
    if added == [] then before == after
    else
      && env.parse(before).Some? && env.parse(after).Some? && Entries(env.parse(before).value).Some?
      && Entries(env.parse(after).value) == Some(Entries(env.parse(before).value).value + EntriesOf(added))
      && Around(env.parse(after).value) == Around(env.parse(before).value)
      && (forall i :: 0 <= i < |added| ==> Get(Entries(env.parse(before).value).value, added[i].name).None?)
      && (forall i, j :: 0 <= i < j < |added| ==> added[i].name != added[j].name)
  }

  lemma {:induction false} GetNone(fields: seq<(string, Json)>, key: string)
    ensures Get(fields, key).None? <==> forall k :: 0 <= k < |fields| ==> fields[k].0 != key
  {
    if fields != [] {
      GetNone(fields[1..], key);
      assert forall k :: 1 <= k < |fields| ==> fields[k] == fields[1..][k - 1];
    }
  }

  lemma GrowsByOne(env: Env, before: string, now: string, after: string, added: seq<ResolvedAdd>, r: ResolvedAdd)
    requires Grown(env, before, now, added) && Appended(env, now, after, r)
    ensures Grown(env, before, after, added + [r])
  {
    var start := if added == [] then Entries(env.parse(now).value).value else Entries(env.parse(before).value).value;
    assert added == [] ==> start + EntriesOf(added) == start;
    EntriesGrow(start, added, r);
    NewName(start, added, r);
  }

  lemma EntriesGrow(start: seq<(string, Json)>, added: seq<ResolvedAdd>, r: ResolvedAdd)
    ensures start + EntriesOf(added) + [(r.name, EntryOf(r))] == start + EntriesOf(added + [r])
  {
    assert EntriesOf(added + [r]) == EntriesOf(added) + [(r.name, EntryOf(r))];
  }

  lemma NewName(start: seq<(string, Json)>, added: seq<ResolvedAdd>, r: ResolvedAdd)
    requires Get(start + EntriesOf(added), r.name).None?
    ensures Get(start, r.name).None? && forall i :: 0 <= i < |added| ==> added[i].name != r.name
  {
    var held := start + EntriesOf(added);
    GetNone(held, r.name);
    GetNone(start, r.name);
    assert forall k :: 0 <= k < |start| ==> held[k] == start[k];
    assert forall k :: 0 <= k < |added| ==> held[|start| + k] == (added[k].name, EntryOf(added[k]));
  }

  /** Any number of requests, each checked before it takes the lock, in any interleaving
      of checks and locked parts, some never getting the lock. */
  method Race(dm: DeviceManager, requests: seq<Args>) returns (ghost added: seq<ResolvedAdd>)
    requires dm.Valid() && dm.InStep()
    modifies dm
    ensures dm.Valid() && dm.InStep()
    ensures Grown(dm.env, old(dm.loaded), dm.loaded, added)
  {
    added := [];
    var todo, checked: seq<ResolvedAdd> := requests, [];
    var stop: bool, pick: nat := *, *;
    while !stop && (todo != [] || checked != [])
      invariant dm.Valid() && dm.InStep()
      invariant Grown(dm.env, old(dm.loaded), dm.loaded, added)
      decreases 2 * |todo| + |checked|, !stop
    {
      stop, pick := *, *;
      if pick < |checked| {
        ghost var before := dm.loaded;
        var r := checked[pick];
        checked := checked[..pick] + checked[pick + 1..];
        var done := dm.AddLocked(r);
        if done.Ok? {
          GrowsByOne(dm.env, old(dm.loaded), before, dm.loaded, added, r);
          added := added + [r];
        }
      } else if todo != [] {
        pick := pick % |todo|;
        var r := dm.Validate(todo[pick]);
        todo := todo[..pick] + todo[pick + 1..];
        if r.Ok? { checked := checked + [r.value]; }
      } else {
        stop := true;
      }
    }
  }

  /** No name is added twice, and every addition is in the file at the end. */
  lemma AdditionsSurvive(env: Env, before: string, after: string, added: seq<ResolvedAdd>, i: nat)
    requires Grown(env, before, after, added) && i < |added|
    ensures (added[i].name, EntryOf(added[i])) in Entries(env.parse(after).value).value
    ensures forall d :: d in Entries(env.parse(before).value).value ==> d in Entries(env.parse(after).value).value
    ensures forall j :: 0 <= j < |added| && added[j].name == added[i].name ==> i == j
  {
    assert EntriesOf(added)[i] == (added[i].name, EntryOf(added[i])) && EntriesOf(added)[i] in EntriesOf(added);
  }
}
