/** `AuthManager` of `ui/login_dialog.py`: the weak-password rule, the
    failed-login lockout, and the validation order of logging in,
    registering and changing a password. The users file and the pending
    registrations file are fields; PBKDF2 records are abstract values, and
    checking a password against one is an oracle. Clock readings are
    parameters. */
module Auth {
  import opened Wrappers
  import opened PyText

  const LockWindow: real := 300.0
  const MaxFailures := 5
  const MinPasswordLength := 8
  const MinUsernameLength := 3
  const MaxDigitsLength := 10
  const WeakList: set<string> := {"admin123", "123456", "password", "qwerty", "000000", "111111", "abcdefg"}
  const DefaultRole := "cs"

  /** A salted password record; its contents are not modelled. */
  datatype PasswordRecord = PasswordRecord(salt: string, hash: string)

  /** `verify_password_record(password, record)`. */
  type Verifier = (string, PasswordRecord) -> bool

  /** One entry of the users file. A record that is missing or not a
      dictionary is None; `must_change_password` is its truthiness. */
  datatype Account = Account(record: Option<PasswordRecord>, role: Option<string>, name: Option<string>,
                             mustChange: bool)

  /** One pending registration. */
  datatype Application = Application(record: PasswordRecord, role: string, name: string, applyTime: string)

  /** `_is_weak_password(username, password)`. */
  predicate IsWeakPassword(username: string, password: string) {
    var pwd := Strip(password);
    || |pwd| < MinPasswordLength
    || (username != "" && Lower(pwd) == Lower(username))
    || Lower(pwd) in WeakList
    || (pwd != "" && AllDigits(pwd) && |pwd| <= MaxDigitsLength)
  }

  /** Only the stripped password is judged, so surrounding whitespace
      never makes a weak password acceptable. */
  lemma WeakIgnoresSpaces(username: string, password: string)
    ensures IsWeakPassword(username, password) == IsWeakPassword(username, Strip(password))
  {
    StripOfTrimmed(Strip(password));
  }

  /** An accepted password has at least 8 characters after stripping, is
      not the username, and is not a list entry nor a short run of digits. */
  lemma StrongPassword(username: string, password: string)
    requires !IsWeakPassword(username, password)
    ensures |Strip(password)| >= MinPasswordLength
    ensures username != "" ==> Lower(Strip(password)) != Lower(username)
    ensures Lower(Strip(password)) !in WeakList
    ensures AllDigits(Strip(password)) ==> |Strip(password)| > MaxDigitsLength
  {
  }

  /** The default credentials are already weak, so the extra check `login`
      makes for them adds nothing. */
  lemma DefaultAdminIsWeak()
    ensures IsWeakPassword("admin", "admin123")
  {
    var p := "admin123";
    DefaultAdminPlain();
    assert Lower(Strip(p)) in WeakList;
  }

  lemma DefaultAdminPlain()
    ensures Strip("admin123") == "admin123" && Lower("admin123") == "admin123"
  {
    var p := "admin123";
    assert p == ['a', 'd', 'm', 'i', 'n', '1', '2', '3'];
    LowerOfLower(p);
    StripOfTrimmed(p);
  }

  lemma LowerOfLower(s: string)
    requires forall i :: 0 <= i < |s| ==> !('A' <= s[i] <= 'Z')
    ensures Lower(s) == s
  {
  }

  /** `[t for t in items if now - t <= 300]`. */
  function Recent(items: seq<real>, now: real): (r: seq<real>)
    ensures |r| <= |items|
    ensures forall t :: t in r <==> t in items && now - t <= LockWindow
  {
    if items == [] then []
    else
      var rest := Recent(items[1..], now);
      assert forall t :: t in items <==> t == items[0] || t in items[1..];
      if now - items[0] <= LockWindow then [items[0]] + rest else rest
  }

  /** The attempt list `_mark_failed` stores: the recent attempts and `now`. */
  function Attempts(failed: map<string, seq<real>>, username: string, now: real): seq<real> {
    Recent(if username in failed then failed[username] else [], now) + [now]
  }

  /** One failure at `now` on an attempt list. */
  function Failed(items: seq<real>, now: real): seq<real> {
    Recent(items, now) + [now]
  }

  /** The attempt list after failures at the times `ts`, in order. */
  function AttemptsAfter(items: seq<real>, ts: seq<real>): seq<real> {
    if ts == [] then items else Failed(AttemptsAfter(items, ts[..|ts| - 1]), ts[|ts| - 1])
  }

  predicate Ascending(ts: seq<real>) {
    forall i, j :: 0 <= i < j < |ts| ==> ts[i] <= ts[j]
  }

  lemma {:induction false} RecentAppend(a: seq<real>, b: seq<real>, now: real)
    ensures Recent(a + b, now) == Recent(a, now) + Recent(b, now)
  {
    if a != [] {
      assert (a + b)[1..] == a[1..] + b;
      RecentAppend(a[1..], b, now);
    } else {
      assert a + b == b;
    }
  }

  lemma {:induction false} RecentOfRecent(s: seq<real>, now: real)
    requires forall i :: 0 <= i < |s| ==> now - s[i] <= LockWindow
    ensures Recent(s, now) == s
  {
    if s != [] {
      RecentOfRecent(s[1..], now);
      assert s == [s[0]] + s[1..];
    }
  }

  /** Failures at non-decreasing times, none more than 300 seconds before
      the last, all stay on the list: it ends with them. */
  lemma {:induction false} AttemptsKept(items: seq<real>, ts: seq<real>)
    requires Ascending(ts)
    requires ts != [] ==> forall i :: 0 <= i < |ts| ==> ts[|ts| - 1] - ts[i] <= LockWindow
    ensures |AttemptsAfter(items, ts)| >= |ts|
    ensures AttemptsAfter(items, ts)[|AttemptsAfter(items, ts)| - |ts|..] == ts
  {
    if ts != [] {
      var init := ts[..|ts| - 1];
      var now := ts[|ts| - 1];
      assert forall i :: 0 <= i < |init| ==> now - init[i] <= LockWindow;
      assert init != [] ==> forall i :: 0 <= i < |init| ==> init[|init| - 1] - init[i] <= LockWindow by {
        if init != [] {
          assert init[|init| - 1] <= now;
        }
      }
      AttemptsKept(items, init);
      var p := AttemptsAfter(items, init);
      var front := p[..|p| - |init|];
      assert p == front + init;
      RecentAppend(front, init, now);
      RecentOfRecent(init, now);
      var x := Recent(front, now);
      assert init + [now] == ts;
      assert AttemptsAfter(items, ts) == Failed(p, now);
      assert Failed(p, now) == x + ts;
      assert (x + ts)[|x|..] == ts;
    }
  }

  /** Five failures within 300 seconds lock the account. */
  lemma FiveFailuresLock(items: seq<real>, ts: seq<real>)
    requires |ts| == MaxFailures && Ascending(ts) && ts[|ts| - 1] - ts[0] <= LockWindow
    ensures |AttemptsAfter(items, ts)| >= MaxFailures
  {
    AttemptsKept(items, ts);
  }

  /** What `login` answers. */
  datatype LoginOutcome =
    | MissingCredentials
    | Locked(seconds: int)
    | UnknownUser
    | OutdatedRecord
    | WrongPassword
    | LoggedIn(name: string, requireChange: bool, role: string)

  /** What `register` answers. */
  datatype RegisterOutcome =
    | MissingFields | ShortUsername | WeakPassword | Mismatch | UserExists | AlreadyPending | Submitted

  /** What `change_password` answers. */
  datatype ChangeOutcome =
    | InvalidUser | MissingPasswords | NewMismatch | NewWeak | NoSuchUser | OutdatedFormat | WrongOldPassword
    | Changed

  /** The answer `register` gives, checked in the source's order. */
  function RegisterCheck(username: string, password: string, confirm: string, users: set<string>,
                         pending: set<string>): RegisterOutcome
  {
    if username == "" || password == "" then MissingFields
    else if |username| < MinUsernameLength then ShortUsername
    else if IsWeakPassword(username, password) then WeakPassword
    else if password != confirm then Mismatch
    else if username in users then UserExists
    else if username in pending then AlreadyPending
    else Submitted
  }

  /** An application is accepted exactly when every check passes; a weak
      password is reported even when the confirmation also differs. */
  lemma RegisterOrder(username: string, password: string, confirm: string, users: set<string>, pending: set<string>)
    ensures RegisterCheck(username, password, confirm, users, pending) == Submitted <==>
              && username != "" && password != "" && |username| >= MinUsernameLength
              && !IsWeakPassword(username, password) && password == confirm
              && username !in users && username !in pending
    ensures username != "" && password != "" && |username| >= MinUsernameLength && IsWeakPassword(username, password)
            ==> RegisterCheck(username, password, confirm, users, pending) == WeakPassword
  {
  }

  /** The answer `change_password` gives, checked in the source's order. */
  function ChangeCheck(username: string, oldPassword: string, newPassword: string, confirm: string,
                       users: map<string, Account>, verify: Verifier): ChangeOutcome
  {
    if username == "" then InvalidUser
    else if oldPassword == "" || newPassword == "" then MissingPasswords
    else if newPassword != confirm then NewMismatch
    else if IsWeakPassword(username, newPassword) then NewWeak
    else if username !in users then NoSuchUser
    else if users[username].record.None? then OutdatedFormat
    else if !verify(oldPassword, users[username].record.value) then WrongOldPassword
    else Changed
  }

  /** The password changes exactly when every check passes, the old
      password included. */
  lemma ChangeOrder(username: string, oldPassword: string, newPassword: string, confirm: string,
                    users: map<string, Account>, verify: Verifier)
    ensures ChangeCheck(username, oldPassword, newPassword, confirm, users, verify) == Changed <==>
              && username != "" && oldPassword != "" && newPassword == confirm && newPassword != ""
              && !IsWeakPassword(username, newPassword) && username in users
              && users[username].record.Some? && verify(oldPassword, users[username].record.value)
  {
  }

  /** `AuthManager`: the failed attempts and locks kept in memory, and the
      users and pending registrations files. */
  class AuthManager {
    var failed: map<string, seq<real>>
    var lockUntil: map<string, real>
    var users: map<string, Account>
    var pending: map<string, Application>

    /** `__init__`: with no users file, the default administrator is
        created with the record of "admin123" and must change it. */
    constructor (stored: Option<map<string, Account>>, pendingFile: map<string, Application>,
                 adminRecord: PasswordRecord)
      ensures failed == map[] && lockUntil == map[] && pending == pendingFile
      ensures stored.Some? ==> users == stored.value
      ensures stored.None? ==> users == map["admin" := Account(Some(adminRecord), Some("admin"), Some("管理员"), true)]
    {
      failed, lockUntil, pending := map[], map[], pendingFile;
      users := if stored.Some? then stored.value
               else map["admin" := Account(Some(adminRecord), Some("admin"), Some("管理员"), true)];
    }

    /** `_is_locked(username)` at `now`: an expired lock is dropped. */
    method IsLocked(username: string, now: real) returns (locked: bool, seconds: int)
      modifies this`lockUntil
      ensures locked <==> username in old(lockUntil) && now < old(lockUntil)[username]
      ensures locked ==> seconds == (old(lockUntil)[username] - now).Floor && seconds >= 0
                         && lockUntil == old(lockUntil)
      ensures !locked ==> seconds == 0 && lockUntil == old(lockUntil) - {username}
    {
      if username !in lockUntil || now >= lockUntil[username] {
        lockUntil := lockUntil - {username};
        return false, 0;
      }
      return true, (lockUntil[username] - now).Floor;
    }

    /** `_mark_failed(username)` at `now`: attempts older than 300 seconds
        go, `now` joins, and a fifth recent failure locks for 300 seconds. */
    method MarkFailed(username: string, now: real)
      modifies this`failed, this`lockUntil
      ensures failed == old(failed)[username := Attempts(old(failed), username, now)]
      ensures forall t :: t in failed[username] ==> now - t <= LockWindow
      ensures lockUntil == if |failed[username]| >= MaxFailures then old(lockUntil)[username := now + LockWindow]
                           else old(lockUntil)
    {
      var items := if username in failed then failed[username] else [];
      items := Recent(items, now) + [now];
      failed := failed[username := items];
      if |items| >= MaxFailures {
        lockUntil := lockUntil[username := now + LockWindow];
      }
    }

    /** `_clear_failed(username)`. */
    method ClearFailed(username: string)
      modifies this`failed, this`lockUntil
      ensures failed == old(failed) - {username} && lockUntil == old(lockUntil) - {username}
    {
      failed := failed - {username};
      lockUntil := lockUntil - {username};
    }

    /** `login(username, password)` at `now`. */
    method Login(username: string, password: string, now: real, verify: Verifier) returns (r: LoginOutcome)
      modifies this`failed, this`lockUntil
      ensures r == MissingCredentials <==> username == "" || password == ""
      ensures r == MissingCredentials ==> failed == old(failed) && lockUntil == old(lockUntil)
      ensures r.Locked? <==> username != "" && password != "" && username in old(lockUntil)
                             && now < old(lockUntil)[username]
      ensures r.Locked? ==> failed == old(failed) && lockUntil == old(lockUntil)
                            && r.seconds == (old(lockUntil)[username] - now).Floor && r.seconds >= 0
      ensures r.LoggedIn? <==> username != "" && password != "" && !r.Locked? && username in users
                               && users[username].record.Some? && verify(password, users[username].record.value)
      ensures r.LoggedIn? ==> failed == old(failed) - {username} && lockUntil == old(lockUntil) - {username}
                              && r.requireChange == (users[username].mustChange || IsWeakPassword(username, password))
                              && r.role == users[username].role.GetOr(DefaultRole)
                              && r.name == users[username].name.GetOr(username)
      ensures r == UnknownUser <==> username != "" && password != "" && !r.Locked? && username !in users
      ensures r == OutdatedRecord <==> username != "" && password != "" && !r.Locked? && username in users
                                       && users[username].record.None?
      ensures r == WrongPassword <==> username != "" && password != "" && !r.Locked? && username in users
                                      && users[username].record.Some? && !verify(password, users[username].record.value)
      ensures r.UnknownUser? || r.OutdatedRecord? || r.WrongPassword? ==>
                && failed == old(failed)[username := Attempts(old(failed), username, now)]
                && var unlocked := old(lockUntil) - {username};
                   lockUntil == if |failed[username]| >= MaxFailures then unlocked[username := now + LockWindow]
                                else unlocked
    {
      if username == "" || password == "" {
        return MissingCredentials;
      }
      var locked, seconds := IsLocked(username, now);
      if locked {
        return Locked(seconds);
      }
      if username !in users {
        MarkFailed(username, now);
        return UnknownUser;
      }
      var user := users[username];
      if user.record.None? {
        MarkFailed(username, now);
        return OutdatedRecord;
      }
      if !verify(password, user.record.value) {
        MarkFailed(username, now);
        return WrongPassword;
      }
      ClearFailed(username);
      var requireChange := user.mustChange || IsWeakPassword(username, password);
      if username == "admin" && password == "admin123" {
        DefaultAdminIsWeak();
        requireChange := true;
      }
      return LoggedIn(user.name.GetOr(username), requireChange, user.role.GetOr(DefaultRole));
    }

    /** `register(username, password, confirm_password, role)`; `record`
        is the new password record and `now` the application time. */
    method Register(username: string, password: string, confirm: string, role: string, record: PasswordRecord,
                    now: string) returns (r: RegisterOutcome)
      modifies this`pending
      ensures r == RegisterCheck(username, password, confirm, old(users).Keys, old(pending).Keys)
      ensures r == Submitted ==> pending == old(pending)[username := Application(record, role, username, now)]
      ensures r != Submitted ==> pending == old(pending)
    {
      if username == "" || password == "" {
        return MissingFields;
      }
      if |username| < MinUsernameLength {
        return ShortUsername;
      }
      if IsWeakPassword(username, password) {
        return WeakPassword;
      }
      if password != confirm {
        return Mismatch;
      }
      if username in users {
        return UserExists;
      }
      if username in pending {
        return AlreadyPending;
      }
      pending := pending[username := Application(record, role, username, now)];
      return Submitted;
    }

    /** `change_password(username, old, new, confirm)`; `record` is the
        new password's record. */
    method ChangePassword(username: string, oldPassword: string, newPassword: string, confirm: string,
                          verify: Verifier, record: PasswordRecord) returns (r: ChangeOutcome)
      modifies this`users
      ensures r == ChangeCheck(username, oldPassword, newPassword, confirm, old(users), verify)
      ensures r == Changed ==> users == old(users)[username := old(users)[username].(record := Some(record), mustChange := false)]
      ensures r != Changed ==> users == old(users)
    {
      if username == "" {
        return InvalidUser;
      }
      if oldPassword == "" || newPassword == "" {
        return MissingPasswords;
      }
      if newPassword != confirm {
        return NewMismatch;
      }
      if IsWeakPassword(username, newPassword) {
        return NewWeak;
      }
      if username !in users {
        return NoSuchUser;
      }
      var user := users[username];
      if user.record.None? {
        return OutdatedFormat;
      }
      if !verify(oldPassword, user.record.value) {
        return WrongOldPassword;
      }
      users := users[username := user.(record := Some(record), mustChange := false)];
      return Changed;
    }
  }
}
