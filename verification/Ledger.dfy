/** The audit log against the rows: what every run of requests, by any users, conserves. */
module Ledger {
  import opened Wrappers
  import opened Crypto
  import opened Store

  datatype Sent = Sent(user: Uuid, request: Request)

  /** The store after a run of requests. */
  function After(d: Database, sent: seq<Sent>): Database {
    if sent == [] then d
    else
      var n := |sent| - 1;
      Handle(After(d, sent[..n]), sent[n].user, sent[n].request).0
  }

  /** Request k of the run was accepted. */
  predicate Accepted(d: Database, sent: seq<Sent>, k: nat)
    requires k < |sent|
  {
    Handle(After(d, sent[..k]), sent[k].user, sent[k].request).1.Done?
  }

  lemma {:induction false} RunKeepsValid(d: Database, sent: seq<Sent>)
    requires Valid(d)
    ensures Valid(After(d, sent))
  {
    hide Valid, Handle;
    if sent != [] {
      var n := |sent| - 1;
      RunKeepsValid(d, sent[..n]);
      HandleKeepsValid(After(d, sent[..n]), sent[n].user, sent[n].request);
    }
  }

  /** Whatever all the others send, in any number and order, a user's vault and rows stay as they are. */
  lemma {:induction false} OthersLeaveMyVault(d: Database, sent: seq<Sent>, user: Uuid)
    requires Valid(d) && forall k | 0 <= k < |sent| :: sent[k].user != user
    ensures SameFor(d, After(d, sent), user)
  {
    hide Valid, Handle, RowsOf;
    if sent != [] {
      var n := |sent| - 1;
      OthersLeaveMyVault(d, sent[..n], user);
      RunKeepsValid(d, sent[..n]);
      UsersAreIsolated(After(d, sent[..n]), sent[n].user, sent[n].request, user);
    }
  }

  // ------------------------------------------------------------------ counting

  function Count(audit: seq<Event>, kind: EventKind, resource: Uuid): nat {
    if audit == [] then 0
    else
      var last := audit[|audit| - 1];
      Count(audit[..|audit| - 1], kind, resource) + if last.kind == kind && last.resource == resource then 1 else 0
  }

  function CountBy(audit: seq<Event>, user: Uuid, kind: EventKind): nat {
    if audit == [] then 0
    else
      var last := audit[|audit| - 1];
      CountBy(audit[..|audit| - 1], user, kind) + if last.user == user && last.kind == kind then 1 else 0
  }

  /** Every accepted request but the creation of a vault logs one event, with its kind and resource. */
  function EventOf(user: Uuid, request: Request, d: Database): seq<Event> {
    match request
    case PostVault(_, _, _) => []
    case PutKey(_) => if user in d.vaults then [Event(user, MasterKeyRewrapped, d.vaults[user].id)] else []
    case PostSecret(id, _) => [Event(user, SecretCreated, id)]
    case PutSecret(id, _, _) => [Event(user, SecretUpdated, id)]
    case DeleteSecret(id) => [Event(user, SecretDeleted, id)]
    case PostRestore(b) => [Event(user, VaultRestored, b.vaultId)]
  }

  lemma HandleLogs(d: Database, user: Uuid, request: Request)
    ensures var (after, status) := Handle(d, user, request);
      && (status.Done? ==> after.audit == d.audit + EventOf(user, request, d))
      && (!status.Done? ==> after == d)
  {
    hide ValidPayload, ValidWrappedKey, ValidBackup, Clash, VaultIdUsed, InsertAll, OneMode;
  }

  // ------------------------------------------------------------------- births

  /** The version a row began with, and the length of the audit log at that moment. */
  datatype Birth = Birth(version: nat, at: nat)

  ghost predicate InBalance(d: Database, births: map<Uuid, Birth>, id: Uuid) {
    && id in d.secrets && id in births && births[id].at <= |d.audit|
    && d.secrets[id].recordVersion == births[id].version + Count(d.audit[births[id].at..], SecretUpdated, id)
  }

  /** One more event changes the count of what it is about, and of nothing else. */
  lemma OneMoreEvent(audit: seq<Event>, e: Event, at: nat, kind: EventKind, resource: Uuid)
    requires at <= |audit|
    ensures Count((audit + [e])[at..], kind, resource)
            == Count(audit[at..], kind, resource) + if e.kind == kind && e.resource == resource then 1 else 0
  {
    assert (audit + [e])[at..] == audit[at..] + [e];
    assert (audit[at..] + [e])[..|audit| - at] == audit[at..];
  }

  /** A row that a request leaves alone stays in balance: nobody logs an update of it. */
  lemma UntouchedInBalance(d: Database, births: map<Uuid, Birth>, after: Database, log: seq<Event>, id: Uuid)
    requires InBalance(d, births, id) && after.audit == d.audit + log && |log| <= 1
    requires id in after.secrets && after.secrets[id] == d.secrets[id]
    requires log != [] ==> !(log[0].kind == SecretUpdated && log[0].resource == id)
    ensures InBalance(after, births, id)
  {
    hide Count;
    if log == [] {
      assert after.audit == d.audit;
    } else {
      assert log == [log[0]];
      OneMoreEvent(d.audit, log[0], births[id].at, SecretUpdated, id);
    }
  }

  lemma UpdatedInBalance(d: Database, births: map<Uuid, Birth>, user: Uuid, id: Uuid, p: Payload, version: int)
    requires InBalance(d, births, id) && UpdateSecret(d, user, id, p, version).1.Done?
    ensures InBalance(UpdateSecret(d, user, id, p, version).0, births, id)
  {
    hide Count, ValidPayload, Clash;
    OneMoreEvent(d.audit, Event(user, SecretUpdated, id), births[id].at, SecretUpdated, id);
  }

  lemma NewbornInBalance(d: Database, births: map<Uuid, Birth>, id: Uuid)
    requires id in d.secrets && id in births && births[id] == Birth(d.secrets[id].recordVersion, |d.audit|)
    ensures InBalance(d, births, id)
  {
    assert d.audit[|d.audit|..] == [];
  }

  /** The births after an accepted restore. */
  function RestoredBirths(births: map<Uuid, Birth>, b: Backup, at: nat): map<Uuid, Birth> {
    var rows := RowsOfRecords(b.vaultId, b.records);
    births + map id | id in rows :: Birth(rows[id].recordVersion, at)
  }

  lemma RestoredInBalance(d: Database, births: map<Uuid, Birth>, user: Uuid, b: Backup, id: Uuid)
    requires Valid(d) && Restore(d, user, b).1.Done? && id in Restore(d, user, b).0.secrets
    requires forall k | k in d.secrets :: InBalance(d, births, k)
    ensures var after := Restore(d, user, b).0; InBalance(after, RestoredBirths(births, b, |after.audit|), id)
  {
    hide Valid, Count, InBalance, Restore, RestoredBirths;
    if Owns(Restore(d, user, b).0, user, id) {
      BroughtInBalance(d, births, user, b, id);
    } else {
      RestoreBringsOnlyItsRecords(d, user, b, id);
      KeptInBalance(d, births, user, b, id);
    }
  }

  lemma BroughtInBalance(d: Database, births: map<Uuid, Birth>, user: Uuid, b: Backup, id: Uuid)
    requires Valid(d) && Restore(d, user, b).1.Done? && Owns(Restore(d, user, b).0, user, id)
    ensures var after := Restore(d, user, b).0; InBalance(after, RestoredBirths(births, b, |after.audit|), id)
  {
    hide Valid, Count, InBalance, Restore, RowsOfRecords;
    var after := Restore(d, user, b).0;
    RestoreOnRows(d, user, b);
    assert id in RowsOf(after, user);
    NewbornInBalance(after, RestoredBirths(births, b, |after.audit|), id);
  }

  lemma KeptInBalance(d: Database, births: map<Uuid, Birth>, user: Uuid, b: Backup, id: Uuid)
    requires Valid(d) && Restore(d, user, b).1.Done? && !Owns(Restore(d, user, b).0, user, id)
    requires id in d.secrets && !Owns(d, user, id) && InBalance(d, births, id)
    ensures var after := Restore(d, user, b).0; InBalance(after, RestoredBirths(births, b, |after.audit|), id)
  {
    hide Valid, Count, Restore, RowsOfRecords;
    var after := Restore(d, user, b).0;
    RestoreOnRows(d, user, b);
    assert id !in RowsOf(after, user);
    HandleLogs(d, user, PostRestore(b));
    KeptByRestore(d, user, b, id);
    UntouchedInBalance(d, births, after, [Event(user, VaultRestored, b.vaultId)], id);
  }

  lemma KeptByRestore(d: Database, user: Uuid, b: Backup, id: Uuid)
    requires Valid(d) && Restore(d, user, b).1.Done? && id in d.secrets && !Owns(d, user, id)
    ensures id in Restore(d, user, b).0.secrets && Restore(d, user, b).0.secrets[id] == d.secrets[id]
  {
    RestoreSteps(d, user, b);
    hide Valid, Restore, InsertAll, EmptyVault;
    assert id in WithoutVault(d, user).secrets;
  }

  function NextBirths(births: map<Uuid, Birth>, d: Database, user: Uuid, request: Request): map<Uuid, Birth> {
    var (after, status) := Handle(d, user, request);
    if !status.Done? then births
    else match request
      case PostSecret(id, _) => births[id := Birth(1, |after.audit|)]
      case PostRestore(b) => RestoredBirths(births, b, |after.audit|)
      case _ => births
  }

  function Births(d: Database, sent: seq<Sent>): map<Uuid, Birth> {
    if sent == [] then map id | id in d.secrets :: Birth(d.secrets[id].recordVersion, |d.audit|)
    else
      var n := |sent| - 1;
      NextBirths(Births(d, sent[..n]), After(d, sent[..n]), sent[n].user, sent[n].request)
  }

  /** A request other than restore leaves every row but its own as it was. */
  lemma OnlyItsRow(d: Database, user: Uuid, request: Request, id: Uuid)
    requires !request.PostRestore? && id in Handle(d, user, request).0.secrets
    requires request.PostSecret? || request.PutSecret? ==> request.id != id || !Handle(d, user, request).1.Done?
    ensures id in d.secrets && Handle(d, user, request).0.secrets[id] == d.secrets[id]
  {
    hide ValidPayload, ValidWrappedKey, ValidBackup, Clash, VaultIdUsed;
  }

  lemma NextInBalance(d: Database, births: map<Uuid, Birth>, user: Uuid, request: Request, id: Uuid)
    requires Valid(d) && id in Handle(d, user, request).0.secrets
    requires forall k | k in d.secrets :: InBalance(d, births, k)
    ensures InBalance(Handle(d, user, request).0, NextBirths(births, d, user, request), id)
  {
    hide Valid, Count, InBalance, CreateSecret, UpdateSecret, RemoveSecret, CreateVault, UpdateVaultKey, Restore;
    var (after, status) := Handle(d, user, request);
    HandleLogs(d, user, request);
    if status.Done? {
      if request.PostRestore? {
        RestoredInBalance(d, births, user, request.backup, id);
      } else if request.PutSecret? && request.id == id {
        UpdatedRowExisted(d, user, id, request.payload, request.recordVersion);
        UpdatedInBalance(d, births, user, id, request.payload, request.recordVersion);
      } else if request.PostSecret? && request.id == id {
        CreatedRow(d, user, id, request.payload);
        NewbornInBalance(after, NextBirths(births, d, user, request), id);
      } else {
        OnlyItsRow(d, user, request, id);
        UntouchedInBalance(d, births, after, EventOf(user, request, d), id);
        if request.PostSecret? { OtherBirth(after, births, request.id, Birth(1, |after.audit|), id); }
      }
    }
  }

  lemma UpdatedRowExisted(d: Database, user: Uuid, id: Uuid, p: Payload, version: int)
    requires UpdateSecret(d, user, id, p, version).1.Done?
    ensures id in d.secrets
  {
  }

  lemma CreatedRow(d: Database, user: Uuid, id: Uuid, p: Payload)
    requires CreateSecret(d, user, id, p).1.Done?
    ensures var after := CreateSecret(d, user, id, p).0; id in after.secrets && after.secrets[id].recordVersion == 1
  {
  }

  lemma OtherBirth(d: Database, births: map<Uuid, Birth>, other: Uuid, birth: Birth, id: Uuid)
    requires InBalance(d, births, id) && id != other
    ensures InBalance(d, births[other := birth], id)
  {
  }

  /** In every run of requests by any users, a live row's version is the one it began with plus its updates since. */
  lemma {:induction false} VersionsCountUpdates(d: Database, sent: seq<Sent>, id: Uuid)
    requires Valid(d) && id in After(d, sent).secrets
    ensures InBalance(After(d, sent), Births(d, sent), id)
  {
    hide Valid, InBalance, Handle, NextBirths;
    if sent == [] {
      NewbornInBalance(d, Births(d, []), id);
    } else {
      var n := |sent| - 1;
      forall k | k in After(d, sent[..n]).secrets ensures InBalance(After(d, sent[..n]), Births(d, sent[..n]), k) {
        VersionsCountUpdates(d, sent[..n], k);
      }
      RunKeepsValid(d, sent[..n]);
      NextInBalance(After(d, sent[..n]), Births(d, sent[..n]), sent[n].user, sent[n].request, id);
    }
  }

  // ------------------------------------------------------- counting live rows

  predicate RestoredBy(d: Database, sent: seq<Sent>, user: Uuid) {
    exists k | 0 <= k < |sent| :: sent[k].user == user && sent[k].request.PostRestore? && Accepted(d, sent, k)
  }

  function Balance(audit: seq<Event>, user: Uuid): int {
    CountBy(audit, user, SecretCreated) - CountBy(audit, user, SecretDeleted)
  }

  lemma OneRowMore(rows: map<Uuid, Secret>, id: Uuid, row: Secret)
    requires id !in rows
    ensures |rows[id := row]| == |rows| + 1
  {
    assert rows[id := row].Keys == rows.Keys + {id};
  }

  lemma OneRowLess(rows: map<Uuid, Secret>, id: Uuid)
    requires id in rows
    ensures |rows - {id}| == |rows| - 1
  {
    assert (rows - {id}).Keys == rows.Keys - {id};
  }

  lemma SameRowCount(rows: map<Uuid, Secret>, id: Uuid, row: Secret)
    requires id in rows
    ensures |rows[id := row]| == |rows|
  {
    assert rows[id := row].Keys == rows.Keys;
  }

  lemma LogBalance(audit: seq<Event>, e: Event, user: Uuid)
    ensures Balance(audit + [e], user)
            == Balance(audit, user) + (if e.user != user then 0 else if e.kind.SecretCreated? then 1
                                       else if e.kind.SecretDeleted? then -1 else 0)
  {
    assert (audit + [e])[..|audit|] == audit;
  }

  lemma NewVaultIsEmpty(d: Database, user: Uuid, id: Uuid, wrapped: WrappedKey, isPrivate: bool)
    requires Valid(d) && CreateVault(d, user, id, wrapped, isPrivate).1.Done?
    ensures RowsOf(CreateVault(d, user, id, wrapped, isPrivate).0, user) == RowsOf(d, user)
  {
    hide ValidPayload, ValidWrappedKey, NamesUnique;
  }

  lemma OwnRowCount(d: Database, user: Uuid, request: Request)
    requires Valid(d) && Handle(d, user, request).1.Done? && !request.PostRestore?
    ensures |RowsOf(Handle(d, user, request).0, user)| - |RowsOf(d, user)|
            == if request.PostSecret? then 1 else if request.DeleteSecret? then -1 else 0
  {
    hide Valid, ValidPayload, ValidWrappedKey, Clash, RowsOf;
    hide CreateSecret, UpdateSecret, RemoveSecret, CreateVault, UpdateVaultKey;
    match request
    case PostVault(id, w, p) => NewVaultIsEmpty(d, user, id, w, p);
    case PutKey(w) => RekeyedHasVault(d, user, w); RewrapOnRows(d, user, w);
    case PostSecret(id, p) =>
      HasVault(d, user, request);
      NotYetARow(d, user, id, p);
      CreateOnRows(d, user, id, p);
      OneRowMore(RowsOf(d, user), id, Secret(d.vaults[user].id, p, 1));
    case PutSecret(id, p, v) =>
      HasVault(d, user, request);
      UpdateOnRows(d, user, id, p, v);
      SameRowCount(RowsOf(d, user), id, Secret(d.vaults[user].id, p, v + 1));
    case DeleteSecret(id) =>
      HasVault(d, user, request);
      RemoveOnRows(d, user, id);
      OneRowLess(RowsOf(d, user), id);
  }

  lemma HasVault(d: Database, user: Uuid, request: Request)
    requires Handle(d, user, request).1.Done? && !request.PostRestore? && !request.PostVault?
    ensures user in d.vaults
  {
  }

  lemma RekeyedHasVault(d: Database, user: Uuid, wrapped: WrappedKey)
    requires UpdateVaultKey(d, user, wrapped).1.Done?
    ensures user in d.vaults && ValidWrappedKey(wrapped)
  {
  }

  lemma NotYetARow(d: Database, user: Uuid, id: Uuid, p: Payload)
    requires CreateSecret(d, user, id, p).1.Done?
    ensures id !in RowsOf(d, user)
  {
  }

  lemma RowCountStep(d: Database, actor: Uuid, request: Request, user: Uuid)
    requires Valid(d) && !(actor == user && request.PostRestore? && Handle(d, actor, request).1.Done?)
    ensures var after := Handle(d, actor, request).0;
      |RowsOf(after, user)| - Balance(after.audit, user) == |RowsOf(d, user)| - Balance(d.audit, user)
  {
    hide Valid, RowsOf, Handle, Balance;
    var (after, status) := Handle(d, actor, request);
    HandleLogs(d, actor, request);
    if status.Done? {
      var log := EventOf(actor, request, d);
      if log == [] {
        assert after.audit == d.audit;
      } else {
        assert log == [log[0]];
        LogBalance(d.audit, log[0], user);
      }
      if actor == user {
        OwnRowCount(d, user, request);
      } else {
        UsersAreIsolated(d, actor, request, user);
      }
    }
  }

  /** While a user restores nothing, live rows and the created-minus-deleted events of the log move together. */
  lemma {:induction false} RowsMatchTheLog(d: Database, sent: seq<Sent>, user: Uuid)
    requires Valid(d) && !RestoredBy(d, sent, user)
    ensures |RowsOf(After(d, sent), user)| - Balance(After(d, sent).audit, user)
            == |RowsOf(d, user)| - Balance(d.audit, user)
  {
    hide Valid, RowsOf, Handle, Balance;
    if sent != [] {
      var n := |sent| - 1;
      var init := sent[..n];
      forall k | 0 <= k < |init| && init[k].user == user && init[k].request.PostRestore? ensures !Accepted(d, init, k) {
        assert init[..k] == sent[..k];
        assert sent[k] == init[k];
      }
      RowsMatchTheLog(d, init, user);
      RunKeepsValid(d, init);
      assert Accepted(d, sent, n) == Handle(After(d, init), sent[n].user, sent[n].request).1.Done?;
      RowCountStep(After(d, init), sent[n].user, sent[n].request, user);
    }
  }

  // ------------------------------------------------- writes within one incarnation

  /** Request k ends the incarnation of a row: it is deleted, or its owner restores a backup. */
  predicate Ends(d: Database, sent: seq<Sent>, k: nat, id: Uuid)
    requires k < |sent|
  {
    Accepted(d, sent, k)
    && (sent[k].request == DeleteSecret(id)
        || (sent[k].request.PostRestore? && Owns(After(d, sent[..k]), sent[k].user, id)))
  }

  lemma RowLivesOn(d: Database, user: Uuid, request: Request, id: Uuid)
    requires Valid(d) && id in d.secrets
    requires Handle(d, user, request).1.Done? ==>
               request != DeleteSecret(id) && !(request.PostRestore? && Owns(d, user, id))
    ensures var after := Handle(d, user, request).0;
      id in after.secrets && d.secrets[id].recordVersion <= after.secrets[id].recordVersion
  {
    hide Valid, ValidPayload, ValidWrappedKey, Clash, VaultIdUsed, Restore;
    if request.PostRestore? {
      if Restore(d, user, request.backup).1.Done? {
        KeptByRestore(d, user, request.backup, id);
      } else {
        RefusedRestore(d, user, request.backup);
      }
    }
  }

  lemma RefusedRestore(d: Database, user: Uuid, b: Backup)
    requires !Restore(d, user, b).1.Done?
    ensures Restore(d, user, b).0 == d
  {
  }

  lemma {:induction false} VersionsOnlyGrow(d: Database, sent: seq<Sent>, i: nat, j: nat, id: Uuid)
    requires Valid(d) && i <= j <= |sent| && id in After(d, sent[..i]).secrets
    requires forall k | i <= k < j :: !Ends(d, sent, k, id)
    ensures id in After(d, sent[..j]).secrets
    ensures After(d, sent[..i]).secrets[id].recordVersion <= After(d, sent[..j]).secrets[id].recordVersion
    decreases j
  {
    hide Valid, Handle;
    if i < j {
      VersionsOnlyGrow(d, sent, i, j - 1, id);
      RunKeepsValid(d, sent[..j - 1]);
      assert sent[..j][..j - 1] == sent[..j - 1];
      assert !Ends(d, sent, j - 1, id);
      RowLivesOn(After(d, sent[..j - 1]), sent[j - 1].user, sent[j - 1].request, id);
    }
  }

  predicate IsPut(sent: Sent, id: Uuid, version: int) {
    sent.request.PutSecret? && sent.request.id == id && sent.request.recordVersion == version
  }

  lemma AcceptedPut(d: Database, user: Uuid, id: Uuid, p: Payload, version: int)
    requires UpdateSecret(d, user, id, p, version).1.Done?
    ensures id in d.secrets && d.secrets[id].recordVersion == version
    ensures var after := UpdateSecret(d, user, id, p, version).0;
      id in after.secrets && after.secrets[id].recordVersion == version + 1
  {
  }

  /** Of all the PUTs that carry one version of a row, the server accepts at most one, until the row is gone. */
  lemma OnePutPerVersion(d: Database, sent: seq<Sent>, i: nat, j: nat, id: Uuid, version: int)
    requires Valid(d) && i < j < |sent|
    requires IsPut(sent[i], id, version) && Accepted(d, sent, i)
    requires IsPut(sent[j], id, version) && Accepted(d, sent, j)
    ensures exists k :: i < k < j && Ends(d, sent, k, id)
  {
    hide Valid, UpdateSecret, Ends;
    assert sent[..i + 1][..i] == sent[..i];
    AcceptedPut(After(d, sent[..i]), sent[i].user, id, sent[i].request.payload, version);
    AcceptedPut(After(d, sent[..j]), sent[j].user, id, sent[j].request.payload, version);
    if forall k | i < k < j :: !Ends(d, sent, k, id) {
      VersionsOnlyGrow(d, sent, i + 1, j, id);
    }
  }

  /** The payload of the last accepted write of a row, read off the requests alone. */
  function LastWritten(d: Database, sent: seq<Sent>, id: Uuid): Option<Payload> {
    if sent == [] then if id in d.secrets then Some(d.secrets[id].payload) else None
    else
      var n := |sent| - 1;
      var before := LastWritten(d, sent[..n], id);
      if !Accepted(d, sent, n) then before
      else match sent[n].request
        case PostSecret(k, p) => if k == id then Some(p) else before
        case PutSecret(k, p, _) => if k == id then Some(p) else before
        case DeleteSecret(k) => if k == id then None else before
        case PostRestore(b) =>
          var rows := RowsOfRecords(b.vaultId, b.records);
          if id in rows then Some(rows[id].payload)
          else if Owns(After(d, sent[..n]), sent[n].user, id) then None
          else before
        case _ => before
  }

  function PayloadOf(d: Database, id: Uuid): Option<Payload> {
    if id in d.secrets then Some(d.secrets[id].payload) else None
  }

  lemma RestoredPayload(d: Database, user: Uuid, b: Backup, id: Uuid)
    requires Valid(d) && Restore(d, user, b).1.Done?
    ensures var rows := RowsOfRecords(b.vaultId, b.records);
      PayloadOf(Restore(d, user, b).0, id)
      == if id in rows then Some(rows[id].payload) else if Owns(d, user, id) then None else PayloadOf(d, id)
  {
    hide Valid, Restore, RowsOfRecords;
    RestoreOnRows(d, user, b);
    var after := Restore(d, user, b).0;
    if id in RowsOf(after, user) {
      assert id in after.secrets;
    } else {
      if id in after.secrets { RestoreBringsOnlyItsRecords(d, user, b, id); }
      if id in d.secrets && !Owns(d, user, id) { KeptByRestore(d, user, b, id); }
    }
  }

  lemma OtherPayload(d: Database, user: Uuid, request: Request, id: Uuid)
    requires !request.PostRestore? && Handle(d, user, request).1.Done?
    ensures PayloadOf(Handle(d, user, request).0, id)
            == match request
               case PostSecret(k, p) => if k == id then Some(p) else PayloadOf(d, id)
               case PutSecret(k, p, _) => if k == id then Some(p) else PayloadOf(d, id)
               case DeleteSecret(k) => if k == id then None else PayloadOf(d, id)
               case _ => PayloadOf(d, id)
  {
    hide ValidPayload, ValidWrappedKey, Clash, VaultIdUsed;
  }

  lemma RefusedChangesNothing(d: Database, user: Uuid, request: Request)
    requires !Handle(d, user, request).1.Done?
    ensures Handle(d, user, request).0 == d
  {
    HandleLogs(d, user, request);
  }

  /** What is stored under an id is always the last accepted write, and nothing when that was its removal. */
  lemma {:induction false} StoredIsLastWritten(d: Database, sent: seq<Sent>, id: Uuid)
    requires Valid(d)
    ensures LastWritten(d, sent, id) == PayloadOf(After(d, sent), id)
  {
    hide Valid, Handle, RowsOfRecords, Owns;
    if sent != [] {
      var n := |sent| - 1;
      var before, user, request := After(d, sent[..n]), sent[n].user, sent[n].request;
      StoredIsLastWritten(d, sent[..n], id);
      RunKeepsValid(d, sent[..n]);
      if !Handle(before, user, request).1.Done? {
        RefusedChangesNothing(before, user, request);
      } else if request.PostRestore? {
        HandlesRestore(before, user, request.backup);
        RestoredPayload(before, user, request.backup, id);
      } else {
        OtherPayload(before, user, request, id);
      }
    }
  }

  lemma HandlesRestore(d: Database, user: Uuid, b: Backup)
    ensures Handle(d, user, PostRestore(b)) == Restore(d, user, b)
  {
    hide Restore;
  }
}
