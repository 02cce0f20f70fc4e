/** Logging on through COM, the questions a call asks about its session, and the audit actor they leave behind. */
module Sessions {
  import opened Text
  import opened Rights

  /** Who a session is: the built-in administrator, or a mailbox account with its level. */
  datatype Identity = BuiltIn | User(mailbox: Mailbox) {
    function Level(): int {
      if BuiltIn? then SERVER_ADMIN else mailbox.level
    }

    function Address(): string {
      if BuiltIn? then "Administrator" else mailbox.address
    }
  }

  datatype Mailbox = Mailbox(address: string, level: int)

  /**
   What the rest of the server answers during one logon: configuration, password checks, one-time codes and the
   single-use token. `check` and `checkMailbox` stand for the password validators.
   */
  datatype World = World(
    adminPassword: string, totpSecret: string, totpEnrolled: bool,
    emptyHash: string,
    check: (string, string) -> bool,
    verifyCode: (string, string) -> bool,
    redeem: string -> bool,
    validate: (string, string) -> Option<Mailbox>,
    lookup: string -> Option<Mailbox>,
    secretOf: Mailbox -> string,
    checkMailbox: (Mailbox, string, bool) -> bool)

  /** A logon; `code` is present on the overload that takes one. */
  datatype Logon = Logon(user: string, password: string, code: Option<string>)

  const ADMINISTRATOR := "administrator"
  const TOKEN := "token:"

  predicate IsAdministrator(fold: CaseMap, user: string) {
    Fold(fold, user) == Fold(fold, ADMINISTRATOR)
  }

  /** The password is the configured one; an unset password counts as the empty one. */
  predicate PasswordAccepted(w: World, password: string) {
    w.check(password, if w.adminPassword == "" then w.emptyHash else w.adminPassword)
  }

  /** No second factor is enrolled, or its code was presented; an enrolled one that cannot be opened is never met. */
  predicate SecondFactorMet(w: World, code: Option<string>) {
    if w.totpSecret == "" then !w.totpEnrolled
    else code.Some? && w.verifyCode(w.totpSecret, code.value)
  }

  /** What the built-in administrator's logon takes. */
  predicate AdministratorGranted(w: World, l: Logon) {
    if StartsWith(l.password, TOKEN) then w.redeem(l.password)
    else PasswordAccepted(w, l.password) && SecondFactorMet(w, l.code)
  }

  /** What a mailbox account's logon yields. */
  function MailboxGranted(w: World, l: Logon): Option<Mailbox> {
    if l.code.None? || w.lookup(l.user).None? then w.validate(l.user, l.password)
    else
      var who := w.lookup(l.user).value;
      var satisfied := w.secretOf(who) != "" && w.verifyCode(w.secretOf(who), l.code.value);
      if w.checkMailbox(who, l.password, satisfied) then Some(who) else None
  }

  function Outcome(fold: CaseMap, w: World, l: Logon): Option<Identity> {
    if IsAdministrator(fold, l.user) then (if AdministratorGranted(w, l) then Some(BuiltIn) else None)
    else AsUser(MailboxGranted(w, l))
  }

  function AsUser(mailbox: Option<Mailbox>): Option<Identity> {
    if mailbox.None? then None else Some(User(mailbox.value))
  }

  /** The audit trail's actor; absent for a caller that is not logged on. */
  datatype Actor = Absent | Actor(name: string, isAdministrator: bool)

  function ActorOf(who: Option<Identity>): Actor {
    match who
    case None => Absent
    case Some(id) => Actor(id.Address(), id.Level() == SERVER_ADMIN || id.Level() == DOMAIN_ADMIN)
  }

  /** A thread of the server, with the actor its writes are attributed to. */
  class AuditThread {
    var actor: Actor

    constructor ()
      ensures actor == Absent
    {
      actor := Absent;
    }
  }

  class ComAuthentication {
    const fold: CaseMap
    var account: Option<Identity>

    constructor (fold: CaseMap)
      ensures this.fold == fold && account == None
    {
      this.fold, account := fold, None;
    }

    method AuthenticateAdministrator(w: World, l: Logon)
      requires account == None
      modifies this
      ensures account == if AdministratorGranted(w, l) then Some(BuiltIn) else None
    {
      if StartsWith(l.password, TOKEN) {
        if w.redeem(l.password) {
          account := Some(BuiltIn);
        }
        return;
      }
      var correct := w.adminPassword;
      if correct == "" {
        correct := w.emptyHash;
      }
      if !w.check(l.password, correct) {
        return;
      }
      var secret := w.totpSecret;
      if w.totpEnrolled && secret == "" {
        return;
      }
      if secret != "" {
        if l.code.None? {
          return;
        }
        if !w.verifyCode(secret, l.code.value) {
          return;
        }
      }
      account := Some(BuiltIn);
    }

    /** Both overloads. The identity left behind is a function of this call alone. */
    method Authenticate(w: World, l: Logon) returns (who: Option<Identity>)
      modifies this
      ensures account == who == Outcome(fold, w, l)
    {
      account := None;
      if IsAdministrator(fold, l.user) {
        AuthenticateAdministrator(w, l);
      } else if l.code.None? {
        account := AsUser(w.validate(l.user, l.password));
      } else {
        var found := w.lookup(l.user);
        if found.None? {
          account := AsUser(w.validate(l.user, l.password));
        } else {
          var satisfied := w.secretOf(found.value) != "" && w.verifyCode(w.secretOf(found.value), l.code.value);
          if w.checkMailbox(found.value, l.password, satisfied) {
            account := Some(User(found.value));
          }
        }
      }
      return account;
    }

    method AttemptAnonymous(w: World)
      modifies this
      ensures account == if w.adminPassword == "" && w.totpSecret == "" then Some(BuiltIn) else old(account)
    {
      if w.adminPassword == "" && w.totpSecret == "" {
        account := Some(BuiltIn);
      }
    }

    /** What the account operations are told about this session. */
    function Rights(): Session
      reads this
    {
      Session(if account.None? then None else Some(account.value.Level()))
    }

    /** Asking installs the session's actor on the asking thread. */
    method GetIsServerAdmin(thread: AuditThread) returns (yes: bool)
      modifies thread
      ensures thread.actor == ActorOf(account)
      ensures yes == Rights().IsServerAdmin()
      ensures yes <==> account == Some(BuiltIn) || (account.Some? && account.value.mailbox.level == 2)
    {
      thread.actor := ActorOf(account);
      yes := account.Some? && account.value.Level() == SERVER_ADMIN;
    }

    method GetIsDomainAdmin(thread: AuditThread) returns (yes: bool)
      modifies thread
      ensures thread.actor == ActorOf(account)
      ensures yes == Rights().IsDomainAdmin()
      ensures yes <==> account == Some(BuiltIn) || (account.Some? && account.value.mailbox.level in {1, 2})
    {
      thread.actor := ActorOf(account);
      yes := GetIsServerAdmin(thread);
      if !yes {
        yes := account.Some? && account.value.Level() == DOMAIN_ADMIN;
      }
    }
  }

  // ---------- sequences of logons ----------

  datatype Attempt = Explicit(world: World, logon: Logon) | Anonymous(world: World) {
    /** The attempt decides the identity, whatever it was before. */
    predicate Decides() {
      Explicit? || (world.adminPassword == "" && world.totpSecret == "")
    }

    function Result(fold: CaseMap): Option<Identity>
      requires Decides()
    {
      if Explicit? then Outcome(fold, world, logon) else Some(BuiltIn)
    }
  }

  function IdentityAfter(fold: CaseMap, attempts: seq<Attempt>): Option<Identity> {
    if attempts == [] then None
    else
      match attempts[|attempts| - 1]
      case Explicit(w, l) => Outcome(fold, w, l)
      case Anonymous(w) =>
        if w.adminPassword == "" && w.totpSecret == "" then Some(BuiltIn)
        else IdentityAfter(fold, attempts[..|attempts| - 1])
  }

  /** The identity of a session is the result of the latest attempt that decides it, and of nothing earlier. */
  lemma {:induction false} LatestDecides(fold: CaseMap, attempts: seq<Attempt>, i: nat)
    requires i < |attempts| && attempts[i].Decides()
    requires forall j :: i < j < |attempts| ==> !attempts[j].Decides()
    ensures IdentityAfter(fold, attempts) == attempts[i].Result(fold)
  {
    if i < |attempts| - 1 {
      LatestDecides(fold, attempts[..|attempts| - 1], i);
    }
  }

  /** A session is logged on only if some attempt made it so. */
  lemma {:induction false} NoneDecidesNone(fold: CaseMap, attempts: seq<Attempt>)
    requires forall j :: 0 <= j < |attempts| ==> !attempts[j].Decides()
    ensures IdentityAfter(fold, attempts) == None
  {
    if attempts != [] {
      NoneDecidesNone(fold, attempts[..|attempts| - 1]);
    }
  }

  /** The attempt makes the session the built-in administrator's, in the answers of the server. */
  predicate Promotes(fold: CaseMap, attempt: Attempt) {
    match attempt
    case Anonymous(w) => w.adminPassword == "" && w.totpSecret == ""
    case Explicit(w, l) =>
      && Fold(fold, l.user) == Fold(fold, "administrator")
      && if "token:" <= l.password then w.redeem(l.password)
         else
           && w.check(l.password, if w.adminPassword == "" then w.emptyHash else w.adminPassword)
           && (w.totpSecret != "" ==> l.code.Some? && w.verifyCode(w.totpSecret, l.code.value))
           && (w.totpEnrolled ==> w.totpSecret != "")
  }

  ghost predicate IsLatest(attempts: seq<Attempt>, i: nat) {
    i < |attempts| && attempts[i].Decides() && forall j :: i < j < |attempts| ==> !attempts[j].Decides()
  }

  /**
   A session is the built-in administrator's exactly when the latest attempt that decided it was an anonymous
   one, with no password set and no second-factor secret to be had, or a logon as administrator with a redeemed
   token, or with the password and whatever second factor is enrolled. A failed logon after it takes the
   identity away.
   */
  lemma {:induction false} BuiltInIff(fold: CaseMap, attempts: seq<Attempt>)
    ensures IdentityAfter(fold, attempts) == Some(BuiltIn)
            <==> exists i: nat :: IsLatest(attempts, i) && Promotes(fold, attempts[i])
  {
    if forall j :: 0 <= j < |attempts| ==> !attempts[j].Decides() {
      NoneDecidesNone(fold, attempts);
    } else {
      var i := FindLatest(attempts);
      LatestDecides(fold, attempts, i);
      assert forall k: nat :: IsLatest(attempts, k) ==> k == i;
    }
  }

  /** A logon as administrator by password, whatever code goes with it. */
  predicate IsPasswordLogon(fold: CaseMap, l: Logon) {
    IsAdministrator(fold, l.user) && !StartsWith(l.password, TOKEN)
  }

  /**
   The anonymous attempt asks whether a secret can be opened, the logon whether one is enrolled. So it grants
   what every password logon is refused exactly when no password is set and a second factor is enrolled whose
   secret cannot be opened. (The empty password passes for an unset one.)
   */
  lemma {:induction false} AnonymousBypass(fold: CaseMap, w: World)
    requires w.check("", w.emptyHash)
    ensures (&& IdentityAfter(fold, [Anonymous(w)]) == Some(BuiltIn)
             && forall l :: IsPasswordLogon(fold, l) ==> IdentityAfter(fold, [Anonymous(w), Explicit(w, l)]) == None)
            <==> w.adminPassword == "" && w.totpSecret == "" && w.totpEnrolled
  {
    assert [Anonymous(w)][..0] == [];
    if w.adminPassword == "" && w.totpSecret == "" && !w.totpEnrolled {
      var l := Logon(ADMINISTRATOR, "", None);
      assert IsPasswordLogon(fold, l);
      assert IdentityAfter(fold, [Anonymous(w), Explicit(w, l)]) == Outcome(fold, w, l) == Some(BuiltIn);
    }
  }

  lemma {:induction false} FindLatest(attempts: seq<Attempt>) returns (i: nat)
    requires exists j :: 0 <= j < |attempts| && attempts[j].Decides()
    ensures IsLatest(attempts, i)
  {
    i := |attempts| - 1;
    while !attempts[i].Decides()
      invariant 0 <= i < |attempts|
      invariant forall j :: i < j < |attempts| ==> !attempts[j].Decides()
      decreases i
    {
      i := i - 1;
    }
  }


  // ---------- what a logon takes, in the answers of the server ----------

  /** The latest attempt that decides is this logon. */
  ghost predicate EndsWithLogon(attempts: seq<Attempt>, i: nat, w: World, l: Logon) {
    && i < |attempts| && attempts[i] == Explicit(w, l)
    && forall j :: i < j < |attempts| ==>
         attempts[j].Anonymous? && (attempts[j].world.adminPassword != "" || attempts[j].world.totpSecret != "")
  }

  lemma {:induction false} LogonDecides(fold: CaseMap, attempts: seq<Attempt>, i: nat, w: World, l: Logon)
    requires EndsWithLogon(attempts, i, w, l)
    ensures IdentityAfter(fold, attempts) == Outcome(fold, w, l)
  {
    LatestDecides(fold, attempts, i);
  }

  /**
   By password, over any attempts before it: the session is the built-in administrator's if and only if the password
   fits the one that is set, or the empty one if none is; a second-factor secret that can be opened was met with a
   code that it verifies; and one that is enrolled can be opened. Otherwise the session is nobody's.
   */
  lemma {:induction false} PasswordLogonIff(fold: CaseMap, attempts: seq<Attempt>, i: nat, w: World, l: Logon)
    requires EndsWithLogon(attempts, i, w, l)
    requires Fold(fold, l.user) == Fold(fold, "administrator") && !("token:" <= l.password)
    ensures IdentityAfter(fold, attempts) == Some(BuiltIn)
            <==> && (if w.adminPassword == "" then w.check(l.password, w.emptyHash)
                     else w.check(l.password, w.adminPassword))
                 && (w.totpSecret != "" ==> l.code.Some? && w.verifyCode(w.totpSecret, l.code.value))
                 && (w.totpEnrolled ==> w.totpSecret != "")
    ensures IdentityAfter(fold, attempts) != Some(BuiltIn) ==> IdentityAfter(fold, attempts) == None
  {
    LogonDecides(fold, attempts, i, w, l);
  }

  /** By token: redeeming it decides alone, whatever password and second factor are set. */
  lemma {:induction false} TokenLogonIff(fold: CaseMap, attempts: seq<Attempt>, i: nat, w: World, l: Logon)
    requires EndsWithLogon(attempts, i, w, l)
    requires Fold(fold, l.user) == Fold(fold, "administrator") && "token:" <= l.password
    ensures IdentityAfter(fold, attempts) == if w.redeem(l.password) then Some(BuiltIn) else None
  {
    LogonDecides(fold, attempts, i, w, l);
  }

  /**
   Any other user: never the built-in administrator. With a code for an account that is found, the session is that
   account's if and only if its password check accepts it with the verdict of its own secret on that code; without,
   it is whoever the validator returns.
   */
  lemma {:induction false} UserLogonIff(fold: CaseMap, attempts: seq<Attempt>, i: nat, w: World, l: Logon, m: Mailbox)
    requires EndsWithLogon(attempts, i, w, l) && Fold(fold, l.user) != Fold(fold, "administrator")
    ensures IdentityAfter(fold, attempts) != Some(BuiltIn)
    ensures l.code.Some? && w.lookup(l.user).Some? ==>
              (IdentityAfter(fold, attempts) == Some(User(m))
               <==> && w.lookup(l.user) == Some(m)
                    && w.checkMailbox(m, l.password,
                                      w.secretOf(m) != "" && w.verifyCode(w.secretOf(m), l.code.value)))
    ensures l.code.None? || w.lookup(l.user).None? ==>
              (IdentityAfter(fold, attempts) == Some(User(m)) <==> w.validate(l.user, l.password) == Some(m))
  {
    LogonDecides(fold, attempts, i, w, l);
  }
}
