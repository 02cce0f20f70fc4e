/** Account objects behind COM handles: the setters, Save, and the collection a handle belongs to. */
module Accounts {
  import opened Text
  import opened PasswordHistory
  import opened Rights
  import Sessions

  /** The in-memory account: its row, 0 before the first save, and the fields that matter here. */
  datatype Account = Account(id: nat, level: int, password: string)

  datatype Row = Row(level: int, password: string)

  datatype Reply = Done | AccessDenied | BadLevel | BadPassword | NotSaved

  // ---------- the operations on values ----------

  /** `put_AdminLevel`: `requested` is a COM enum, that is any integer. */
  function PutLevel(session: Session, level: int, requested: int): (Reply, int) {
    if level == SERVER_ADMIN && !session.IsServerAdmin() then (AccessDenied, level)
    else if requested == NORMAL || requested == DOMAIN_ADMIN then
      if !session.IsDomainAdmin() && !session.IsServerAdmin() then (AccessDenied, level) else (Done, requested)
    else if requested == SERVER_ADMIN then
      if level == SERVER_ADMIN then (Done, level)
      else if !session.IsServerAdmin() then (AccessDenied, level)
      else (Done, requested)
    else (BadLevel, level)
  }

  /** How the database answers a save. The last two need an insert: the account's inbox could not be created. */
  datatype Database = Stored | Rejected | RolledBack | Orphaned

  datatype Saved = Saved(reply: Reply, account: Account, rows: map<nat, Row>, nextId: nat)

  /** `PersistentAccount::SaveObject`: an update needs the row to be there, an insert takes a new identity. */
  function SavedObject(account: Account, rows: map<nat, Row>, nextId: nat, db: Database): Saved {
    var row := Row(account.level, account.password);
    if account.id > 0 then
      if account.id !in rows || !db.Stored? then Saved(NotSaved, account, rows, nextId)
      else Saved(Done, account, rows[account.id := row], nextId)
    else
      match db
      case Rejected => Saved(NotSaved, account, rows, nextId)
      case Stored => Saved(Done, account.(id := nextId), rows[nextId := row], nextId + 1)
      case RolledBack => Saved(NotSaved, account.(id := nextId), rows, nextId + 1)
      case Orphaned => Saved(NotSaved, account.(id := nextId), rows[nextId := row], nextId + 1)
  }

  /** `Save`: only a server administrator saves an account that is one in memory. */
  function SavedBy(session: Session, account: Account, rows: map<nat, Row>, nextId: nat, db: Database): Saved {
    if !session.IsServerAdmin() && account.level == SERVER_ADMIN
    then Saved(AccessDenied, account, rows, nextId)
    else SavedObject(account, rows, nextId, db)
  }

  // ---------- the objects ----------

  class AccountObject {
    var id: nat
    var level: int
    var password: string

    constructor (id: nat, level: int, password: string)
      ensures Value() == Account(id, level, password)
    {
      this.id, this.level, this.password := id, level, password;
    }

    function Value(): Account
      reads this
    {
      Account(id, level, password)
    }
  }

  class Store {
    var rows: map<nat, Row>
    var nextId: nat

    /** Writes every column from the object, as an insert or an update. */
    method SaveObject(account: AccountObject, db: Database) returns (ok: bool)
      modifies this, account
      ensures var r := SavedObject(old(account.Value()), old(rows), old(nextId), db);
              && account.Value() == r.account && rows == r.rows && nextId == r.nextId
              && ok == (r.reply == Done)
    {
      var isNew := account.id == 0;
      if !isNew && account.id !in rows {
        return false;
      }
      ok := db.Stored?;
      if isNew && !db.Rejected? {
        account.id := nextId;
        nextId := nextId + 1;
        if !db.RolledBack? {
          rows := rows[account.id := Row(account.level, account.password)];
        }
      } else if ok {
        rows := rows[account.id := Row(account.level, account.password)];
      }
    }
  }

  class AccountList {
    var items: seq<AccountObject>
  }

  /** `InterfaceAccount` over `COMCollectionItem`. */
  class AccountHandle {
    const authentication: Sessions.ComAuthentication
    var account: AccountObject
    var parent: AccountList?
    var inCollection: bool

    constructor (authentication: Sessions.ComAuthentication, account: AccountObject, parent: AccountList?,
                 inCollection: bool)
      ensures this.authentication == authentication && this.account == account
      ensures this.parent == parent && this.inCollection == inCollection
    {
      this.authentication, this.account, this.parent := authentication, account, parent;
      this.inCollection := inCollection;
    }

    method PutAdminLevel(requested: int) returns (reply: Reply)
      modifies account
      ensures (reply, account.level) == PutLevel(authentication.Rights(), old(account.level), requested)
      ensures account.Value() == old(account.Value()).(level := account.level)
    {
      var session := authentication.Rights();
      if account.level == SERVER_ADMIN && !session.IsServerAdmin() {
        return AccessDenied;
      }
      match requested {
        case 0 | 1 =>
          if !session.IsDomainAdmin() && !session.IsServerAdmin() {
            return AccessDenied;
          }
        case 2 =>
          if account.level == SERVER_ADMIN {
            return Done;
          }
          if !session.IsServerAdmin() {
            return AccessDenied;
          }
        case _ =>
          return BadLevel;
      }
      account.level := requested;
      return Done;
    }

    /** The policy and the history decide; no session is asked. The old hash is recorded, saved or not. */
    method PutPassword(allowed: bool, history: History, password: string, hash: string) returns (reply: Reply)
      modifies account, history
      ensures var book := Book(old(account.password), old(history.Of(account.id)));
              var c := Change(password, hash, allowed);
              && reply == (if IsAccepted(history.validate, history.depth, book, c) then Done else BadPassword)
              && Book(account.password, history.Of(account.id))
                 == Changed(history.validate, history.depth, account.id, book, c)
      ensures account.Value() == old(account.Value()).(password := account.password)
      ensures forall other :: other != account.id ==> history.Of(other) == old(history.Of(other))
    {
      if !allowed {
        return BadPassword;
      }
      var reuse := history.IsReuse(account.id, account.password, password);
      if reuse {
        return BadPassword;
      }
      history.Record(account.id, account.password);
      account.password := hash;
      return Done;
    }

    method AddToParentCollection()
      modifies this`inCollection, parent
      ensures if old(inCollection) || parent == null
              then inCollection == old(inCollection) && (parent != null ==> parent.items == old(parent.items))
              else inCollection && parent.items == old(parent.items) + [account]
    {
      if inCollection || parent == null {
        return;
      }
      parent.items := parent.items + [account];
      inCollection := true;
    }

    method Save(store: Store, db: Database) returns (reply: Reply)
      modifies this`inCollection, account, store, parent
      ensures var r := SavedBy(authentication.Rights(), old(account.Value()), old(store.rows), old(store.nextId), db);
              && reply == r.reply && account.Value() == r.account
              && store.rows == r.rows && store.nextId == r.nextId
      ensures if reply == Done && !old(inCollection) && parent != null
              then inCollection && parent.items == old(parent.items) + [account]
              else inCollection == old(inCollection) && (parent != null ==> parent.items == old(parent.items))
    {
      if !authentication.Rights().IsServerAdmin() && account.level == SERVER_ADMIN {
        return AccessDenied;
      }
      var ok := store.SaveObject(account, db);
      if ok {
        AddToParentCollection();
        return Done;
      }
      return NotSaved;
    }
  }

  /** `InterfaceAccounts`: where handles come from. */
  class AccountsInterface {
    const authentication: Sessions.ComAuthentication
    const accounts: AccountList

    constructor (authentication: Sessions.ComAuthentication, accounts: AccountList)
      ensures this.authentication == authentication && this.accounts == accounts
    {
      this.authentication, this.accounts := authentication, accounts;
    }

    /** A new account that no collection holds yet. */
    method Add() returns (handle: AccountHandle?)
      ensures handle != null <==> authentication.Rights().IsDomainAdmin()
      ensures handle != null ==>
                && fresh(handle) && fresh(handle.account) && handle.account.Value() == Account(0, NORMAL, "")
                && handle.authentication == authentication && handle.parent == accounts && !handle.inCollection
    {
      if !authentication.Rights().IsDomainAdmin() {
        return null;
      }
      var account := new AccountObject(0, NORMAL, "");
      handle := new AccountHandle(authentication, account, accounts, false);
    }

    /** A handle that shares the object the collection holds. */
    method GetItem(index: int) returns (handle: AccountHandle?)
      ensures handle != null <==> 0 <= index < |accounts.items|
      ensures handle != null ==>
                && fresh(handle) && handle.account == accounts.items[index]
                && handle.authentication == authentication && handle.parent == accounts && handle.inCollection
    {
      if index < 0 || index >= |accounts.items| {
        return null;
      }
      handle := new AccountHandle(authentication, accounts.items[index], accounts, true);
    }

    method GetItemByDbId(id: nat) returns (handle: AccountHandle?)
      ensures handle == null <==> forall i :: 0 <= i < |accounts.items| ==> accounts.items[i].id != id
      ensures handle != null ==>
                && fresh(handle) && handle.account in accounts.items && handle.account.id == id
                && handle.authentication == authentication && handle.parent == accounts && handle.inCollection
    {
      var i := 0;
      while i < |accounts.items|
        invariant 0 <= i <= |accounts.items|
        invariant forall j :: 0 <= j < i ==> accounts.items[j].id != id
      {
        if accounts.items[i].id == id {
          handle := new AccountHandle(authentication, accounts.items[i], accounts, true);
          return;
        }
        i := i + 1;
      }
      return null;
    }

    /** New objects for the rows the query lists; handles on the old ones keep the old ones. */
    method Refresh(rows: map<nat, Row>, ids: seq<nat>)
      requires forall i :: 0 <= i < |ids| ==> ids[i] in rows
      modifies accounts
      ensures |accounts.items| == |ids|
      ensures forall i :: 0 <= i < |ids| ==>
                && fresh(accounts.items[i])
                && accounts.items[i].Value() == Account(ids[i], rows[ids[i]].level, rows[ids[i]].password)
    {
      var loaded: seq<AccountObject> := [];
      var i := 0;
      while i < |ids|
        invariant 0 <= i <= |ids| && |loaded| == i
        invariant forall j :: 0 <= j < i ==>
                    && fresh(loaded[j])
                    && loaded[j].Value() == Account(ids[j], rows[ids[j]].level, rows[ids[j]].password)
      {
        var row := rows[ids[i]];
        var account := new AccountObject(ids[i], row.level, row.password);
        loaded := loaded + [account];
        i := i + 1;
      }
      accounts.items := loaded;
    }
  }
}
