// Schedules edited by clients: each request is a transaction over the in-memory list, the file
// it is kept in, and what the timer is told.

module ClientSchedules {
  import opened Base
  import opened Markup
  import opened Utf8

  datatype FrontendKind = Client | OtherFrontend

  datatype Channel = Channel(frontend: FrontendKind, user: string, thread: string)

  datatype Spec = Once(at: int) | Cron

  datatype Schedule = Schedule(raw: string, spec: Spec)

  datatype Definition = Definition(
    id: nat,
    name: string,
    content: string,
    schedule: Schedule,
    enabled: bool,
    notify: bool,
    output: Option<Channel>,
    createdAt: int,
    health: int)

  datatype Input = Input(name: string, content: string, schedule: string, enabled: bool, notify: bool)

  datatype Action =
    | List
    | Create(input: Input)
    | Update(id: nat, expected: string, input: Input)
    | Delete(id: nat, expected: string)
    | History(id: nat)

  datatype Request = Request(channel: Channel, command: nat, action: Action)

  datatype Error =
    | InvalidChannel
    | StorageUnavailable
    | Capacity
    | NameUnavailable
    | InvalidInput
    | InvalidSchedule
    | InPast
    | NotFound
    | Changed

  /** The fields that a revision covers: everything a client may edit, and the owner. */
  datatype Fields = Fields(id: nat, name: string, content: string, schedule: Schedule, enabled: bool, notify: bool, output: Option<Channel>)

  /** The schedule parser and the digest of the revision fields. */
  datatype Env = Env(parse: string -> Option<Schedule>, digest: Fields -> string)

  const CAPACITY := 256
  const NAME_BYTES := 128
  const CONTENT_BYTES := 32 * 1024

  predicate OwnedBy(d: Definition, user: string) {
    d.output.Some? && d.output.value.frontend == Client && d.output.value.user == user
  }

  function FieldsOf(d: Definition): Fields {
    Fields(d.id, d.name, d.content, d.schedule, d.enabled, d.notify, d.output)
  }

  function Revision(env: Env, d: Definition): string {
    env.digest(FieldsOf(d))
  }

  function Validate(env: Env, input: Input, now: int): (r: Result<Schedule, Error>) {
    if Trim(input.name) == "" || ByteLen(input.name) > NAME_BYTES
       || Trim(input.content) == "" || ByteLen(input.content) > CONTENT_BYTES
    then Err(InvalidInput)
    else
      match env.parse(input.schedule)
      case None => Err(InvalidSchedule)
      case Some(schedule) =>
        if input.enabled && schedule.spec.Once? && schedule.spec.at <= now then Err(InPast) else Ok(schedule)
  }

  /** The first definition with this id that the user owns, or the length. */
  function Find(defs: seq<Definition>, id: nat, user: string): (k: nat)
    ensures k <= |defs|
    ensures k < |defs| ==> defs[k].id == id && OwnedBy(defs[k], user)
    ensures forall j :: 0 <= j < k ==> !(defs[j].id == id && OwnedBy(defs[j], user))
  {
    if defs == [] || (defs[0].id == id && OwnedBy(defs[0], user)) then 0 else 1 + Find(defs[1..], id, user)
  }

  predicate NameTaken(defs: seq<Definition>, name: string, except: nat) {
    exists k :: 0 <= k < |defs| && defs[k].id != except && defs[k].name == name
  }

  function Edited(d: Definition, input: Input, schedule: Schedule): Definition {
    d.(name := input.name, content := input.content, schedule := schedule, enabled := input.enabled, notify := input.notify)
  }

  function New(request: Request, input: Input, schedule: Schedule, now: int): Definition {
    Definition(request.command, input.name, input.content, schedule, input.enabled, input.notify, Some(request.channel), now, 0)
  }

  function Without(defs: seq<Definition>, id: nat): seq<Definition> {
    if defs == [] then [] else (if defs[0].id == id then [] else [defs[0]]) + Without(defs[1..], id)
  }

  predicate IsEdit(action: Action) {
    action.Create? || action.Update? || action.Delete?
  }

  predicate Taken(defs: seq<Definition>, name: string, id: nat) {
    exists k :: 0 <= k < |defs| && (defs[k].name == name || defs[k].id == id)
  }

  function CreateIn(defs: seq<Definition>, request: Request, input: Input, checked: Result<Schedule, Error>, now: int): Result<seq<Definition>, Error> {
    if |defs| >= CAPACITY then Err(Capacity)
    else if Taken(defs, input.name, request.command) then Err(NameUnavailable)
    else if checked.Err? then Err(checked.error)
    else Ok(defs + [New(request, input, checked.value, now)])
  }

  function UpdateAt(env: Env, defs: seq<Definition>, k: nat, expected: string, input: Input, checked: Result<Schedule, Error>): Result<seq<Definition>, Error>
    requires k <= |defs|
  {
    if k == |defs| then Err(NotFound)
    else if Revision(env, defs[k]) != expected then Err(Changed)
    else if checked.Err? then Err(checked.error)
    else
      var edited := defs[k := Edited(defs[k], input, checked.value)];
      if NameTaken(edited, input.name, defs[k].id) then Err(NameUnavailable) else Ok(edited)
  }

  function DeleteAt(env: Env, defs: seq<Definition>, k: nat, expected: string): Result<seq<Definition>, Error>
    requires k <= |defs|
  {
    if k == |defs| then Err(NotFound)
    else if Revision(env, defs[k]) != expected then Err(Changed)
    else Ok(Without(defs, defs[k].id))
  }

  /** The list that an edit asks for, or the reason why it is refused. */
  function Edit(env: Env, defs: seq<Definition>, request: Request, now: int): Result<seq<Definition>, Error>
    requires IsEdit(request.action)
  {
    var user := request.channel.user;
    match request.action
    case Create(input) => CreateIn(defs, request, input, Validate(env, input, now), now)
    case Update(id, expected, input) => UpdateAt(env, defs, Find(defs, id, user), expected, input, Validate(env, input, now))
    case Delete(id, expected) => DeleteAt(env, defs, Find(defs, id, user), expected)
  }

  // ---- the store ---------------------------------------------------------------------------

  /** What the file system does during one request. */
  datatype Disk = Disk(ownerReads: nat -> bool, ownerWrites: nat -> bool, fileWrites: bool, runs: nat -> Option<seq<int>>)

  /** Recording the owner of each definition of a client, in order, until one step fails. An
      owner that is on record is never replaced. */
  function RecordOwners(owners: map<nat, string>, defs: seq<Definition>, disk: Disk): (r: (map<nat, string>, bool))
    ensures forall id :: id in owners ==> id in r.0 && r.0[id] == owners[id]
    decreases |defs|
  {
    if defs == [] then (owners, true)
    else if defs[0].output.None? || defs[0].output.value.frontend != Client then RecordOwners(owners, defs[1..], disk)
    else
      var id, user := defs[0].id, defs[0].output.value.user;
      if !disk.ownerReads(id) then (owners, false)
      else if id in owners then
        if owners[id] == user then RecordOwners(owners, defs[1..], disk) else (owners, false)
      else if !disk.ownerWrites(id) then (owners, false)
      else RecordOwners(owners[id := user], defs[1..], disk)
  }

  /** Whether a user may see the history of a definition: it is theirs, or was before it was
      deleted. */
  function SeeHistory(defs: seq<Definition>, owners: map<nat, string>, id: nat, user: string, disk: Disk): Result<seq<int>, Error> {
    if Find(defs, id, user) == |defs| && !disk.ownerReads(id) then Err(StorageUnavailable)
    else if Find(defs, id, user) == |defs| && !(id in owners && owners[id] == user) then Err(NotFound)
    else if disk.runs(id).None? then Err(StorageUnavailable)
    else Ok(disk.runs(id).value)
  }

  /** What requests work on: the list in memory, the file, the record of owners, and what the timer
      was told. */
  datatype Store = Store(defs: seq<Definition>, file: seq<Definition>, owners: map<nat, string>, published: seq<Definition>)

  /** An edit that is in order is saved: owners first, then the file, then memory and timer. */
  function SaveIn(s: Store, list: seq<Definition>, watched: bool, disk: Disk): (Store, Result<Option<seq<int>>, Error>) {
    var (owners, ok) := RecordOwners(s.owners, list, disk);
    if ok && disk.fileWrites then (Store(list, list, owners, if watched then list else s.published), Ok(None))
    else (s.(owners := owners), Err(StorageUnavailable))
  }

  /** What one request leaves and answers. */
  function Outcome(env: Env, s: Store, stored: bool, watched: bool, request: Request, now: int, disk: Disk)
    : (Store, Result<Option<seq<int>>, Error>)
  {
    if request.channel.frontend != Client then (s, Err(InvalidChannel))
    else if request.action.List? then (s, Ok(None))
    else if !stored then (s, Err(StorageUnavailable))
    else if request.action.History? then
      match SeeHistory(s.defs, s.owners, request.action.id, request.channel.user, disk)
      case Ok(records) => (s, Ok(Some(records)))
      case Err(e) => (s, Err(e))
    else
      match Edit(env, s.defs, request, now)
      case Err(e) => (s, Err(e))
      case Ok(list) => SaveIn(s, list, watched, disk)
  }

  class Scheduler {
    var defs: seq<Definition>
    var file: seq<Definition>
    var owners: map<nat, string>
    var published: seq<Definition>
    const stored: bool
    const watched: bool

    function State(): Store
      reads this
    {
      Store(defs, file, owners, published)
    }

    constructor (initial: seq<Definition>, stored: bool, watched: bool)
      ensures defs == file == published == initial && owners == map[]
      ensures this.stored == stored && this.watched == watched
    {
      defs, file, published, owners := initial, initial, initial, map[];
      this.stored, this.watched := stored, watched;
    }

    /** Writes owners first, then the file, which is replaced as a whole. */
    method Save(list: seq<Definition>, disk: Disk) returns (ok: bool)
      modifies this`file, this`owners
      ensures owners == RecordOwners(old(owners), list, disk).0
      ensures ok == (RecordOwners(old(owners), list, disk).1 && disk.fileWrites)
      ensures file == if ok then list else old(file)
    {
      assert list[0..] == list;
      for k := 0 to |list|
        invariant file == old(file)
        invariant RecordOwners(owners, list[k..], disk) == RecordOwners(old(owners), list, disk)
      {
        assert list[k..][1..] == list[k + 1..];
        var d := list[k];
        if d.output.Some? && d.output.value.frontend == Client {
          var user := d.output.value.user;
          if !disk.ownerReads(d.id) {
            return false;
          }
          if d.id in owners {
            if owners[d.id] != user {
              return false;
            }
          } else {
            if !disk.ownerWrites(d.id) {
              return false;
            }
            owners := owners[d.id := user];
          }
        }
      }
      if !disk.fileWrites {
        return false;
      }
      file := list;
      ok := true;
    }

    /** One request. Memory, file and timer change together or not at all; a refused or failed
        edit leaves all three as they were. The record of owners may have grown even then. */
    method Apply(env: Env, request: Request, now: int, disk: Disk) returns (r: Result<Option<seq<int>>, Error>)
      modifies this
      ensures (State(), r) == Outcome(env, old(State()), stored, watched, request, now, disk)
      ensures request.channel.frontend != Client ==> r == Err(InvalidChannel)
      ensures request.channel.frontend == Client && request.action.List? ==> r == Ok(None)
      ensures request.channel.frontend == Client && !request.action.List? && !stored ==> r == Err(StorageUnavailable)
      ensures request.channel.frontend == Client && stored && request.action.History? ==>
                match SeeHistory(old(defs), old(owners), request.action.id, request.channel.user, disk)
                case Ok(records) => r == Ok(Some(records))
                case Err(e) => r == Err(e)
      ensures request.channel.frontend == Client && stored && IsEdit(request.action) ==>
                match Edit(env, old(defs), request, now)
                case Err(e) => r == Err(e)
                case Ok(list) =>
                  if RecordOwners(old(owners), list, disk).1 && disk.fileWrites
                  then r == Ok(None) && defs == list
                  else r == Err(StorageUnavailable)
      ensures r.Err? || !IsEdit(request.action) ==> defs == old(defs) && file == old(file) && published == old(published)
      ensures r.Ok? && IsEdit(request.action) ==> file == defs && published == if watched then defs else old(published)
      ensures forall id :: id in old(owners) ==> id in owners && owners[id] == old(owners)[id]
      ensures !IsEdit(request.action) || request.channel.frontend != Client || !stored || Edit(env, old(defs), request, now).Err? ==> owners == old(owners)
    {
      if request.channel.frontend != Client {
        return Err(InvalidChannel);
      }
      if request.action.List? {
        return Ok(None);
      }
      if !stored {
        return Err(StorageUnavailable);
      }
      if request.action.History? {
        var seen := SeeHistory(defs, owners, request.action.id, request.channel.user, disk);
        match seen
        case Ok(records) => return Ok(Some(records));
        case Err(e) => return Err(e);
      }
      var edit := Edit(env, defs, request, now);
      if edit.Err? {
        return Err(edit.error);
      }
      var ok := Save(edit.value, disk);
      if !ok {
        return Err(StorageUnavailable);
      }
      defs := edit.value;
      if watched {
        published := defs;
      }
      return Ok(None);
    }
  }

  // ---- what edits keep -----------------------------------------------------------------------

  ghost predicate Unique(defs: seq<Definition>) {
    forall i, j :: 0 <= i < j < |defs| ==> defs[i].id != defs[j].id && defs[i].name != defs[j].name
  }

  lemma {:induction false} WithoutMembers(defs: seq<Definition>, id: nat)
    ensures forall d :: d in Without(defs, id) <==> d in defs && d.id != id
    ensures |Without(defs, id)| <= |defs|
  {
    if defs != [] {
      WithoutMembers(defs[1..], id);
      assert defs == [defs[0]] + defs[1..];
    }
  }

  lemma UniqueCons(d: Definition, rest: seq<Definition>, defs: seq<Definition>)
    requires Unique(defs) && defs != [] && d == defs[0] && Unique(rest) && forall x :: x in rest ==> x in defs[1..]
    ensures Unique([d] + rest)
  {
    var all := [d] + rest;
    forall j | 0 < j < |all| ensures all[j].id != d.id && all[j].name != d.name {
      assert all[j] == rest[j - 1] && rest[j - 1] in rest;
      var k :| 0 <= k < |defs[1..]| && defs[1..][k] == all[j];
      assert defs[k + 1] == all[j];
    }
  }

  lemma {:induction false} WithoutKeepsUnique(defs: seq<Definition>, id: nat)
    requires Unique(defs)
    ensures Unique(Without(defs, id))
  {
    if defs != [] {
      WithoutKeepsUnique(defs[1..], id);
      WithoutMembers(defs[1..], id);
      if defs[0].id != id {
        UniqueCons(defs[0], Without(defs[1..], id), defs);
      }
    }
  }

  lemma UpdateKeepsUnique(env: Env, defs: seq<Definition>, k: nat, expected: string, input: Input, checked: Result<Schedule, Error>)
    requires k <= |defs| && Unique(defs) && UpdateAt(env, defs, k, expected, input, checked).Ok?
    ensures Unique(UpdateAt(env, defs, k, expected, input, checked).value)
  {
    var edited := UpdateAt(env, defs, k, expected, input, checked).value;
    forall i, j | 0 <= i < j < |edited| ensures edited[i].id != edited[j].id && edited[i].name != edited[j].name {
      assert defs[i].id != defs[j].id;
      assert edited[if i == k then j else i].name != input.name;
    }
  }

  lemma CreateKeepsUnique(defs: seq<Definition>, request: Request, input: Input, checked: Result<Schedule, Error>, now: int)
    requires Unique(defs) && CreateIn(defs, request, input, checked, now).Ok?
    ensures Unique(CreateIn(defs, request, input, checked, now).value)
  {
  }

  /** Ids and names stay unique. */
  lemma EditKeepsUnique(env: Env, defs: seq<Definition>, request: Request, now: int)
    requires IsEdit(request.action) && Unique(defs) && Edit(env, defs, request, now).Ok?
    ensures Unique(Edit(env, defs, request, now).value)
  {
    var user := request.channel.user;
    match request.action
    case Create(input) => CreateKeepsUnique(defs, request, input, Validate(env, input, now), now);
    case Update(id, expected, input) => UpdateKeepsUnique(env, defs, Find(defs, id, user), expected, input, Validate(env, input, now));
    case Delete(id, _) => WithoutKeepsUnique(defs, id);
  }

  lemma CreateKeepsCapacity(defs: seq<Definition>, request: Request, input: Input, checked: Result<Schedule, Error>, now: int)
    requires CreateIn(defs, request, input, checked, now).Ok?
    ensures |CreateIn(defs, request, input, checked, now).value| <= CAPACITY
  {
  }

  lemma EditKeepsCapacity(env: Env, defs: seq<Definition>, request: Request, now: int)
    requires IsEdit(request.action) && Edit(env, defs, request, now).Ok?
    ensures |Edit(env, defs, request, now).value| <= Max(|defs|, CAPACITY)
  {
    var user := request.channel.user;
    match request.action
    case Create(input) => CreateKeepsCapacity(defs, request, input, Validate(env, input, now), now);
    case Update(id, expected, input) => UpdateIsInPlace(env, defs, Find(defs, id, user), expected, input, Validate(env, input, now));
    case Delete(id, _) => WithoutMembers(defs, id);
  }

  /** An accepted schedule is what the parser reads. */
  lemma ValidatedIsParsed(env: Env, input: Input, now: int)
    requires Validate(env, input, now).Ok?
    ensures env.parse(input.schedule) == Some(Validate(env, input, now).value)
  {
  }

  /** A creation appends one definition, which has the id of the request, every field of its input,
      and the channel that asked as its output. */
  lemma CreationHasTheInput(env: Env, defs: seq<Definition>, request: Request, now: int)
    requires request.action.Create? && Edit(env, defs, request, now).Ok?
    ensures var list, input := Edit(env, defs, request, now).value, request.action.input;
            && |list| == |defs| + 1 && list[..|defs|] == defs
            && var d := list[|defs|];
               && d.id == request.command && d.name == input.name && d.content == input.content
               && Some(d.schedule) == env.parse(input.schedule)
               && d.enabled == input.enabled && d.notify == input.notify
               && d.output == Some(request.channel) && d.createdAt == now
  {
    ValidatedIsParsed(env, request.action.input, now);
  }

  /** An update gives one definition of the user every field of the input and leaves its id, its
      output and its history alone, and all other definitions. */
  lemma UpdateHasTheInput(env: Env, defs: seq<Definition>, request: Request, now: int)
    requires request.action.Update? && Edit(env, defs, request, now).Ok?
    ensures var list, input := Edit(env, defs, request, now).value, request.action.input;
            var k := Find(defs, request.action.id, request.channel.user);
            && k < |defs| == |list| && (forall j :: 0 <= j < |defs| && j != k ==> list[j] == defs[j])
            && list[k].name == input.name && list[k].content == input.content
            && Some(list[k].schedule) == env.parse(input.schedule)
            && list[k].enabled == input.enabled && list[k].notify == input.notify
            && list[k].id == defs[k].id == request.action.id && list[k].output == defs[k].output
            && list[k].createdAt == defs[k].createdAt && list[k].health == defs[k].health
  {
    ValidatedIsParsed(env, request.action.input, now);
  }

  /** A deletion takes away exactly the definitions with that id, one of which the user owns. */
  lemma DeletionTakesTheId(env: Env, defs: seq<Definition>, request: Request, now: int)
    requires request.action.Delete? && Edit(env, defs, request, now).Ok?
    ensures forall d :: d in Edit(env, defs, request, now).value <==> d in defs && d.id != request.action.id
    ensures exists d :: d in defs && d.id == request.action.id && OwnedBy(d, request.channel.user)
  {
    WithoutMembers(defs, request.action.id);
    var k := Find(defs, request.action.id, request.channel.user);
    assert defs[k] in defs;
  }

  /** The definitions of everybody else, in order. */
  function OfOthers(defs: seq<Definition>, user: string): seq<Definition> {
    if defs == [] then [] else (if OwnedBy(defs[0], user) then [] else [defs[0]]) + OfOthers(defs[1..], user)
  }

  lemma {:induction false} OthersPush(defs: seq<Definition>, d: Definition, user: string)
    ensures OfOthers(defs + [d], user) == OfOthers(defs, user) + if OwnedBy(d, user) then [] else [d]
  {
    if defs == [] {
      assert defs + [d] == [d];
    } else {
      assert (defs + [d])[1..] == defs[1..] + [d];
      OthersPush(defs[1..], d, user);
    }
  }

  lemma {:induction false} OthersUpdate(defs: seq<Definition>, k: nat, d: Definition, user: string)
    requires k < |defs| && OwnedBy(defs[k], user) && OwnedBy(d, user)
    ensures OfOthers(defs[k := d], user) == OfOthers(defs, user)
  {
    if k == 0 {
      assert defs[0 := d][1..] == defs[1..];
    } else {
      assert defs[k := d][1..] == defs[1..][k - 1 := d];
      OthersUpdate(defs[1..], k - 1, d, user);
    }
  }

  ghost predicate NobodyElseHas(defs: seq<Definition>, id: nat, user: string) {
    forall k :: 0 <= k < |defs| && defs[k].id == id ==> OwnedBy(defs[k], user)
  }

  lemma OthersCons(d: Definition, rest: seq<Definition>, user: string)
    ensures OfOthers([d] + rest, user) == if OwnedBy(d, user) then OfOthers(rest, user) else [d] + OfOthers(rest, user)
  {
    assert ([d] + rest)[1..] == rest;
  }

  lemma NobodyElseCons(d: Definition, rest: seq<Definition>, id: nat, user: string)
    ensures NobodyElseHas([d] + rest, id, user) <==> (d.id == id ==> OwnedBy(d, user)) && NobodyElseHas(rest, id, user)
  {
    var all := [d] + rest;
    assert forall k :: 0 <= k < |rest| ==> rest[k] == all[k + 1];
    assert all[0] == d;
  }

  lemma {:induction false} OthersWithout(defs: seq<Definition>, id: nat, user: string)
    ensures OfOthers(Without(defs, id), user) == OfOthers(defs, user) <==> NobodyElseHas(defs, id, user)
    ensures |OfOthers(Without(defs, id), user)| <= |OfOthers(defs, user)|
  {
    if defs != [] {
      var d, tail := defs[0], defs[1..];
      OthersWithout(tail, id, user);
      assert defs == [d] + tail;
      NobodyElseCons(d, tail, id, user);
      OthersCons(d, tail, user);
      OthersCons(d, Without(tail, id), user);
      assert Without(defs, id) == if d.id == id then Without(tail, id) else [d] + Without(tail, id);
      SameTail(d, OfOthers(Without(tail, id), user), OfOthers(tail, user));
    }
  }

  lemma SameTail(d: Definition, a: seq<Definition>, b: seq<Definition>)
    ensures [d] + a == [d] + b <==> a == b
  {
    assert ([d] + a)[1..] == a && ([d] + b)[1..] == b;
  }

  /** Definitions of other users are never touched: for creating and updating always, for deleting
      exactly when no other user's definition carries the same id. */
  lemma EditIsIsolatedIff(env: Env, defs: seq<Definition>, request: Request, now: int)
    requires request.channel.frontend == Client && IsEdit(request.action) && Edit(env, defs, request, now).Ok?
    ensures OfOthers(Edit(env, defs, request, now).value, request.channel.user) == OfOthers(defs, request.channel.user)
       <==> request.action.Create? || request.action.Update? || NobodyElseHas(defs, request.action.id, request.channel.user)
  {
    var user := request.channel.user;
    match request.action
    case Create(input) => CreateIsIsolated(defs, request, input, Validate(env, input, now), now);
    case Update(id, expected, input) => UpdateIsIsolated(env, defs, Find(defs, id, user), expected, input, Validate(env, input, now), user);
    case Delete(id, _) => OthersWithout(defs, id, user);
  }

  lemma CreateIsIsolated(defs: seq<Definition>, request: Request, input: Input, checked: Result<Schedule, Error>, now: int)
    requires request.channel.frontend == Client && CreateIn(defs, request, input, checked, now).Ok?
    ensures OfOthers(CreateIn(defs, request, input, checked, now).value, request.channel.user) == OfOthers(defs, request.channel.user)
  {
    OthersPush(defs, New(request, input, checked.value, now), request.channel.user);
  }

  lemma UpdateIsIsolated(env: Env, defs: seq<Definition>, k: nat, expected: string, input: Input, checked: Result<Schedule, Error>, user: string)
    requires k <= |defs| && (k < |defs| ==> OwnedBy(defs[k], user)) && UpdateAt(env, defs, k, expected, input, checked).Ok?
    ensures OfOthers(UpdateAt(env, defs, k, expected, input, checked).value, user) == OfOthers(defs, user)
  {
    OthersUpdate(defs, k, Edited(defs[k], input, checked.value), user);
  }

  /** An update replaces one definition of the user by one with the same id and owner. */
  lemma UpdateIsInPlace(env: Env, defs: seq<Definition>, k: nat, expected: string, input: Input, checked: Result<Schedule, Error>)
    requires k <= |defs| && UpdateAt(env, defs, k, expected, input, checked).Ok?
    ensures k < |defs| && Revision(env, defs[k]) == expected
    ensures var edited := UpdateAt(env, defs, k, expected, input, checked).value;
            && |edited| == |defs| && edited == defs[k := edited[k]]
            && edited[k].id == defs[k].id && edited[k].output == defs[k].output
            && (edited == defs <==> FieldsOf(edited[k]) == FieldsOf(defs[k]))
  {
    var edited := UpdateAt(env, defs, k, expected, input, checked).value;
    assert edited[k] == Edited(defs[k], input, checked.value);
    assert edited == defs <==> edited[k] == defs[k];
  }

  /** Unique ids are enough for that. */
  lemma UniqueIdsIsolate(env: Env, defs: seq<Definition>, request: Request, now: int)
    requires request.channel.frontend == Client && IsEdit(request.action) && Unique(defs) && Edit(env, defs, request, now).Ok?
    ensures OfOthers(Edit(env, defs, request, now).value, request.channel.user) == OfOthers(defs, request.channel.user)
  {
    EditIsIsolatedIff(env, defs, request, now);
    if request.action.Delete? {
      var id, user := request.action.id, request.channel.user;
      var k := Find(defs, id, user);
      assert forall j :: 0 <= j < |defs| && defs[j].id == id ==> j == k;
    }
  }

  // ---- revisions ---------------------------------------------------------------------------------

  ghost predicate CollisionFree(env: Env) {
    forall a, b :: env.digest(a) == env.digest(b) ==> a == b
  }

  /** An update or deletion goes through only on the revision that the client has seen: the fields
      it covers are still the ones behind the expected digest. */
  lemma EditNeedsTheSeenRevision(env: Env, defs: seq<Definition>, request: Request, now: int, seen: Definition)
    requires CollisionFree(env) && (request.action.Update? || request.action.Delete?)
    requires request.action.expected == Revision(env, seen) && Edit(env, defs, request, now).Ok?
    ensures var k := Find(defs, request.action.id, request.channel.user);
            k < |defs| && FieldsOf(defs[k]) == FieldsOf(seen)
  {
  }

  /** No lost update: of two edits that start from the same revision, the second is refused, unless
      the first one changed nothing. */
  lemma SecondWriterIsRefused(env: Env, defs: seq<Definition>, first: Request, second: Request, now: int, later: int)
    requires CollisionFree(env) && Unique(defs) && first.channel.user == second.channel.user
    requires first.action.Update? && (second.action.Update? || second.action.Delete?)
    requires first.action.id == second.action.id && first.action.expected == second.action.expected
    requires Edit(env, defs, first, now).Ok?
    ensures Edit(env, Edit(env, defs, first, now).value, second, later) == Err(Changed) <==> Edit(env, defs, first, now).value != defs
  {
    var id, user := first.action.id, first.channel.user;
    var k := Find(defs, id, user);
    UpdateIsInPlace(env, defs, k, first.action.expected, first.action.input, Validate(env, first.action.input, now));
    var edited := Edit(env, defs, first, now).value;
    FindStays(defs, edited, id, user, k);
    ChangedIff(env, edited, second, later);
  }

  lemma ChangedIff(env: Env, defs: seq<Definition>, request: Request, now: int)
    requires request.action.Update? || request.action.Delete?
    requires Find(defs, request.action.id, request.channel.user) < |defs|
    ensures Edit(env, defs, request, now) == Err(Changed)
       <==> Revision(env, defs[Find(defs, request.action.id, request.channel.user)]) != request.action.expected
  {
    var k := Find(defs, request.action.id, request.channel.user);
    if request.action.Update? {
      var checked := Validate(env, request.action.input, now);
      ValidateReasons(env, request.action.input, now);
      UpdateChangedIff(env, defs, k, request.action.expected, request.action.input, checked);
    }
  }

  lemma UpdateChangedIff(env: Env, defs: seq<Definition>, k: nat, expected: string, input: Input, checked: Result<Schedule, Error>)
    requires k < |defs| && checked != Err(Changed)
    ensures UpdateAt(env, defs, k, expected, input, checked) == Err(Changed) <==> Revision(env, defs[k]) != expected
  {
  }

  lemma ValidateReasons(env: Env, input: Input, now: int)
    ensures Validate(env, input, now).Err? ==> Validate(env, input, now).error in {InvalidInput, InvalidSchedule, InPast}
  {
  }

  lemma {:induction false} FindStays(defs: seq<Definition>, edited: seq<Definition>, id: nat, user: string, k: nat)
    requires |defs| == |edited| && k == Find(defs, id, user) && k < |defs|
    requires forall j :: 0 <= j < |defs| && j != k ==> edited[j] == defs[j]
    requires edited[k].id == id && OwnedBy(edited[k], user)
    ensures Find(edited, id, user) == k
  {
    var f := Find(edited, id, user);
    assert !(f < k) && !(f > k);
  }

  // ---- whole runs ----------------------------------------------------------------------------------

  /** One request with the time at which it is handled and what the disk does then. */
  datatype Call = Call(request: Request, now: int, disk: Disk)

  function RunCalls(env: Env, s: Store, stored: bool, watched: bool, calls: seq<Call>): Store
    decreases |calls|
  {
    if calls == [] then s
    else RunCalls(env, Outcome(env, s, stored, watched, calls[0].request, calls[0].now, calls[0].disk).0, stored, watched, calls[1..])
  }

  /** The definitions of one user, in order. */
  function OfUser(defs: seq<Definition>, user: string): seq<Definition> {
    if defs == [] then [] else (if OwnedBy(defs[0], user) then [defs[0]] else []) + OfUser(defs[1..], user)
  }

  lemma {:induction false} UserIsAmongOthers(defs: seq<Definition>, user: string, other: string)
    requires user != other
    ensures OfUser(OfOthers(defs, other), user) == OfUser(defs, user)
  {
    if defs != [] {
      var d, tail := defs[0], defs[1..];
      UserIsAmongOthers(tail, user, other);
      assert defs == [d] + tail;
      OthersCons(d, tail, other);
      UserCons(d, OfOthers(tail, other), user);
    }
  }

  lemma UserCons(d: Definition, rest: seq<Definition>, user: string)
    ensures OfUser([d] + rest, user) == if OwnedBy(d, user) then [d] + OfUser(rest, user) else OfUser(rest, user)
  {
    assert ([d] + rest)[1..] == rest;
  }

  lemma OthersKeepMine(env: Env, defs: seq<Definition>, request: Request, now: int, user: string)
    requires Unique(defs) && request.channel.frontend == Client && request.channel.user != user
    requires IsEdit(request.action) && Edit(env, defs, request, now).Ok?
    ensures Unique(Edit(env, defs, request, now).value) && OfUser(Edit(env, defs, request, now).value, user) == OfUser(defs, user)
  {
    EditKeepsUnique(env, defs, request, now);
    UniqueIdsIsolate(env, defs, request, now);
    UserIsAmongOthers(defs, user, request.channel.user);
    UserIsAmongOthers(Edit(env, defs, request, now).value, user, request.channel.user);
  }

  /** The list in memory after one request: as it was, or the list that the edit asks for. */
  lemma OutcomeIsAnEdit(env: Env, s: Store, stored: bool, watched: bool, request: Request, now: int, disk: Disk)
    ensures var t := Outcome(env, s, stored, watched, request, now, disk).0;
            || t.defs == s.defs
            || (request.channel.frontend == Client && IsEdit(request.action) && Edit(env, s.defs, request, now) == Ok(t.defs))
    ensures s.file == s.defs ==> Outcome(env, s, stored, watched, request, now, disk).0.file == Outcome(env, s, stored, watched, request, now, disk).0.defs
  {
  }

  /** Whatever all the others request, in any order and number, at any times and with any failures
      of the disk, a user's own list stays as it is, ids and names stay unique, and the file holds
      what memory holds. */
  lemma {:induction false} OthersCannotTouchMine(env: Env, s: Store, stored: bool, watched: bool, calls: seq<Call>, user: string)
    requires Unique(s.defs) && s.file == s.defs
    requires forall k :: 0 <= k < |calls| ==> calls[k].request.channel.user != user
    ensures var t := RunCalls(env, s, stored, watched, calls);
            Unique(t.defs) && OfUser(t.defs, user) == OfUser(s.defs, user) && t.file == t.defs
    decreases |calls|
  {
    if calls != [] {
      var c := calls[0];
      var t := Outcome(env, s, stored, watched, c.request, c.now, c.disk).0;
      OutcomeIsAnEdit(env, s, stored, watched, c.request, c.now, c.disk);
      if t.defs != s.defs {
        OthersKeepMine(env, s.defs, c.request, c.now, user);
      }
      OthersCannotTouchMine(env, t, stored, watched, calls[1..], user);
    }
  }

  /** The record of owners is honest about everything that was saved. */
  lemma {:induction false} SavedOwnersAreOnRecord(owners: map<nat, string>, defs: seq<Definition>, disk: Disk, k: nat)
    requires RecordOwners(owners, defs, disk).1 && k < |defs|
    requires defs[k].output.Some? && defs[k].output.value.frontend == Client
    ensures defs[k].id in RecordOwners(owners, defs, disk).0
    ensures RecordOwners(owners, defs, disk).0[defs[k].id] == defs[k].output.value.user
    decreases |defs|
  {
    var d := defs[0];
    var next := if d.output.Some? && d.output.value.frontend == Client then owners[d.id := d.output.value.user] else owners;
    if d.output.Some? && d.output.value.frontend == Client && d.id in owners {
      assert next == owners;
    }
    if k > 0 {
      SavedOwnersAreOnRecord(next, defs[1..], disk, k - 1);
    }
  }

  // ---- what a failed edit leaves behind ---------------------------------------------------------

  predicate ByClient(d: Definition) {
    d.output.Some? && d.output.value.frontend == Client
  }

  /** The step for this definition ends the save: its owner cannot be read, is somebody else, or
      is not on record and cannot be written. */
  predicate StepFails(owners: map<nat, string>, d: Definition, disk: Disk) {
    ByClient(d) && (!disk.ownerReads(d.id) || if d.id in owners then owners[d.id] != d.output.value.user else !disk.ownerWrites(d.id))
  }

  /** The save gets as far as definition `k`, whose owner is not on record and can be written. */
  predicate RecordsNew(owners: map<nat, string>, list: seq<Definition>, disk: Disk, k: nat) {
    && k < |list| && ByClient(list[k]) && list[k].id !in owners
    && forall j :: 0 <= j <= k ==> !StepFails(owners, list[j], disk)
  }

  lemma RecordsNewCons(owners: map<nat, string>, d: Definition, rest: seq<Definition>, disk: Disk, k: nat)
    requires !StepFails(owners, d, disk)
    ensures RecordsNew(owners, [d] + rest, disk, k + 1) <==> RecordsNew(owners, rest, disk, k)
  {
    var list := [d] + rest;
    assert forall j :: 0 <= j < |rest| ==> list[j + 1] == rest[j];
    if RecordsNew(owners, rest, disk, k) {
      forall j | 0 <= j <= k + 1 ensures !StepFails(owners, list[j], disk) {
        assert j > 0 ==> list[j] == rest[j - 1];
      }
    }
    if RecordsNew(owners, list, disk, k + 1) {
      forall j | 0 <= j <= k ensures !StepFails(owners, rest[j], disk) {
        assert rest[j] == list[j + 1];
      }
    }
  }

  lemma RecordsNewOn(owners: map<nat, string>, d: Definition, rest: seq<Definition>, disk: Disk)
    requires !StepFails(owners, d, disk) && !(ByClient(d) && d.id !in owners)
    ensures (exists k :: RecordsNew(owners, [d] + rest, disk, k)) <==> exists k :: RecordsNew(owners, rest, disk, k)
  {
    if exists k :: RecordsNew(owners, [d] + rest, disk, k) {
      var k: nat :| RecordsNew(owners, [d] + rest, disk, k);
      assert k > 0;
      RecordsNewCons(owners, d, rest, disk, k - 1);
    }
    if exists k :: RecordsNew(owners, rest, disk, k) {
      var k: nat :| RecordsNew(owners, rest, disk, k);
      RecordsNewCons(owners, d, rest, disk, k);
    }
  }

  /** A save changes the record of owners exactly when it gets as far as a client's definition that
      is not on record, whether or not it fails later. */
  lemma {:induction false} OwnersChangeIff(owners: map<nat, string>, list: seq<Definition>, disk: Disk)
    ensures RecordOwners(owners, list, disk).0 != owners <==> exists k :: RecordsNew(owners, list, disk, k)
    decreases |list|
  {
    if list != [] {
      if StepFails(owners, list[0], disk) {
        assert RecordOwners(owners, list, disk).0 == owners;
      } else if ByClient(list[0]) && list[0].id !in owners {
        assert RecordsNew(owners, list, disk, 0);
        assert list[0].id in RecordOwners(owners, list, disk).0;
      } else {
        assert list == [list[0]] + list[1..];
        RecordsNewOn(owners, list[0], list[1..], disk);
        OwnersChangeIff(owners, list[1..], disk);
      }
    }
  }

  /** A request that is refused or fails leaves list, file and timer as they were, and the record
      of owners too, except exactly in this case: the edit was in order, and its save failed behind
      a client's definition that was not on record. */
  lemma RefusedEditChangesOwnersIff(env: Env, s: Store, stored: bool, watched: bool, request: Request, now: int, disk: Disk)
    requires Outcome(env, s, stored, watched, request, now, disk).1.Err?
    ensures var t := Outcome(env, s, stored, watched, request, now, disk).0;
            && t == s.(owners := t.owners)
            && (t.owners != s.owners <==>
                  && request.channel.frontend == Client && stored && IsEdit(request.action) && Edit(env, s.defs, request, now).Ok?
                  && exists k :: RecordsNew(s.owners, Edit(env, s.defs, request, now).value, disk, k))
  {
    if request.channel.frontend == Client && stored && IsEdit(request.action) && Edit(env, s.defs, request, now).Ok? {
      OwnersChangeIff(s.owners, Edit(env, s.defs, request, now).value, disk);
    }
  }

  lemma {:induction false} RecordPush(owners: map<nat, string>, list: seq<Definition>, d: Definition, disk: Disk)
    requires RecordOwners(owners, list, disk).1
    ensures RecordOwners(owners, list + [d], disk) == RecordOwners(RecordOwners(owners, list, disk).0, [d], disk)
    decreases |list|
  {
    if list == [] {
      assert list + [d] == [d];
    } else {
      assert (list + [d])[1..] == list[1..] + [d];
      var x := list[0];
      RecordPush(if ByClient(x) && x.id !in owners then owners[x.id := x.output.value.user] else owners, list[1..], d, disk);
    }
  }

  /** An owner on record stays there over any requests. */
  lemma {:induction false} OwnerStaysOnRecord(env: Env, s: Store, stored: bool, watched: bool, calls: seq<Call>, id: nat)
    requires id in s.owners
    ensures var t := RunCalls(env, s, stored, watched, calls); id in t.owners && t.owners[id] == s.owners[id]
    decreases |calls|
  {
    if calls != [] {
      var c := calls[0];
      var t := Outcome(env, s, stored, watched, c.request, c.now, c.disk).0;
      assert id in t.owners && t.owners[id] == s.owners[id];
      OwnerStaysOnRecord(env, t, stored, watched, calls[1..], id);
    }
  }

  lemma OnRecordIsRefused(env: Env, s: Store, stored: bool, watched: bool, request: Request, now: int, disk: Disk)
    requires request.action.Create? && request.command in s.owners && s.owners[request.command] != request.channel.user
    ensures Outcome(env, s, stored, watched, request, now, disk).1.Err?
  {
    if request.channel.frontend == Client && Edit(env, s.defs, request, now).Ok? {
      DeletedIdStaysWithItsOwner(env, s.defs, s.owners, request, now, disk);
    }
  }

  /** A creation in order whose file cannot be written is refused, and its id belongs to the user
      all the same: whatever is requested in between, nobody else can ever create a schedule with it. */
  lemma FailedCreationKeepsItsId(env: Env, s: Store, watched: bool, request: Request, now: int, disk: Disk)
    requires request.action.Create? && request.channel.frontend == Client && Edit(env, s.defs, request, now).Ok?
    requires RecordOwners(s.owners, s.defs, disk) == (s.owners, true) && request.command !in s.owners
    requires disk.ownerReads(request.command) && disk.ownerWrites(request.command) && !disk.fileWrites
    ensures Outcome(env, s, true, watched, request, now, disk)
         == (s.(owners := s.owners[request.command := request.channel.user]), Err(StorageUnavailable))
    ensures var t := Outcome(env, s, true, watched, request, now, disk).0;
            forall calls: seq<Call>, again: Request, later: int, disk2: Disk ::
              again.action.Create? && again.command == request.command && again.channel.user != request.channel.user
              ==> Outcome(env, RunCalls(env, t, true, watched, calls), true, watched, again, later, disk2).1.Err?
  {
    var list := Edit(env, s.defs, request, now).value;
    assert list == s.defs + [list[|s.defs|]];
    RecordPush(s.owners, s.defs, list[|s.defs|], disk);
    var t := Outcome(env, s, true, watched, request, now, disk).0;
    forall calls: seq<Call>, again: Request, later: int, disk2: Disk |
      again.action.Create? && again.command == request.command && again.channel.user != request.channel.user
      ensures Outcome(env, RunCalls(env, t, true, watched, calls), true, watched, again, later, disk2).1.Err?
    {
      OwnerStaysOnRecord(env, t, true, watched, calls, request.command);
      OnRecordIsRefused(env, RunCalls(env, t, true, watched, calls), true, watched, again, later, disk2);
    }
  }

  /** Such a creation: the very first one, on a disk that is full by the time the file is written. */
  lemma FullDiskLocksTheId(env: Env, request: Request, watched: bool, now: int)
    requires request.action.Create? && request.channel.frontend == Client && Validate(env, request.action.input, now).Ok?
    ensures Outcome(env, Store([], [], map[], []), true, watched, request, now, Disk(_ => true, _ => true, false, _ => None))
         == (Store([], [], map[request.command := request.channel.user], []), Err(StorageUnavailable))
  {
    var s := Store([], [], map[], []);
    var disk := Disk(_ => true, _ => true, false, _ => None);
    FailedCreationKeepsItsId(env, s, watched, request, now, disk);
    assert s.owners[request.command := request.channel.user] == map[request.command := request.channel.user];
  }

  /** The id of a deleted schedule cannot be taken over by another user. */
  lemma DeletedIdStaysWithItsOwner(env: Env, defs: seq<Definition>, owners: map<nat, string>, request: Request, now: int, disk: Disk)
    requires request.action.Create? && request.channel.frontend == Client && Edit(env, defs, request, now).Ok?
    requires request.command in owners && owners[request.command] != request.channel.user
    ensures !RecordOwners(owners, Edit(env, defs, request, now).value, disk).1
  {
    var list := Edit(env, defs, request, now).value;
    if RecordOwners(owners, list, disk).1 {
      SavedOwnersAreOnRecord(owners, list, disk, |defs|);
    }
  }
}
