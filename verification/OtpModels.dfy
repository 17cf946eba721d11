/**
 The OTP row, the OTP table, and the user and phone tables behind phone login. Their phone columns
 hold the number in normal form; a spelling given to a lookup or an insert is normalised first.
 */
module OtpModels {
  import opened Results
  import opened Spellings

  /** One row of the OTP table as the database holds it. */
  datatype StoredOtp = StoredOtp(otp: Option<string>, expiresAt: Option<real>)

  /** A row with a code and an expiry. */
  predicate Complete(row: StoredOtp) {
    row.otp.Some? && row.otp.value != "" && row.expiresAt.Some?
  }

  /** An instance of the model in memory. `code` parameters stand for what the provider draws. */
  class Otp {
    const number: string
    const duration: real
    var otp: Option<string>
    var expiresAt: Option<real>

    constructor (number: string, duration: real, row: StoredOtp)
      ensures this.number == number && this.duration == duration && View() == row
    {
      this.number := number;
      this.duration := duration;
      this.otp := row.otp;
      this.expiresAt := row.expiresAt;
    }

    function View(): StoredOtp
      reads this
    {
      StoredOtp(otp, expiresAt)
    }

    method SetOtpAndValidity(code: string, now: real)
      modifies this
      ensures View() == StoredOtp(Some(code), Some(now + duration))
    {
      otp := Some(code);
      expiresAt := Some(now + duration);
    }

    /** A missing code or expiry makes it draw both afresh; a row that has both is stored as it is. */
    method Save(table: OtpRepository, code: string, now: real)
      modifies this, table
      ensures Complete(old(View())) ==> View() == old(View())
      ensures !Complete(old(View())) ==> View() == StoredOtp(Some(code), Some(now + duration))
      ensures code != "" ==> Complete(View())
      ensures table.rows == old(table.rows)[number := View()]
    {
      if otp.None? || otp.value == "" || expiresAt.None? {
        SetOtpAndValidity(code, now);
      }
      table.rows := table.rows[number := StoredOtp(otp, expiresAt)];
    }

    method Reset(table: OtpRepository, code: string, now: real)
      modifies this, table
      ensures View() == StoredOtp(Some(code), Some(now + duration))
      ensures table.rows == old(table.rows)[number := View()]
    {
      SetOtpAndValidity(code, now);
      Save(table, code, now);
    }

    /** The expiry instant itself still counts as valid; a null expiry never does. */
    method IsValid(now: real) returns (valid: bool)
      ensures valid <==> expiresAt.Some? && now <= expiresAt.value
    {
      if expiresAt.None? {
        return false;
      }
      valid := now <= expiresAt.value;
    }
  }

  predicate Unexpired(row: StoredOtp, now: real) {
    row.expiresAt.Some? && now <= row.expiresAt.value
  }

  /** The OTP table, unique by number. */
  class OtpRepository {
    const canon: Canon
    const duration: real
    var rows: map<string, StoredOtp>

    constructor (canon: Canon, duration: real)
      ensures this.canon == canon && this.duration == duration && rows == map[]
    {
      this.canon := canon;
      this.duration := duration;
      this.rows := map[];
    }

    method GetOrCreate(phone: string, code: string, now: real) returns (row: Otp, created: bool)
      modifies this
      ensures fresh(row) && row.number == canon(phone) && row.duration == duration
      ensures created == (canon(phone) !in old(rows))
      ensures rows == if created then old(rows)[canon(phone) := StoredOtp(Some(code), Some(now + duration))]
                      else old(rows)
      ensures canon(phone) in rows && row.View() == rows[canon(phone)]
    {
      var number := canon(phone);
      created := number !in rows;
      if created {
        row := new Otp(number, duration, StoredOtp(None, None));
        row.Save(this, code, now);
      } else {
        row := new Otp(number, duration, rows[number]);
      }
    }

    method GetByPhone(phone: string) returns (row: Otp?)
      ensures row == null <==> canon(phone) !in rows
      ensures row != null ==> fresh(row) && row.number == canon(phone) && row.View() == rows[canon(phone)]
    {
      var number := canon(phone);
      if number in rows {
        row := new Otp(number, duration, rows[number]);
      } else {
        row := null;
      }
    }

    method DeleteRow(row: Otp)
      modifies this
      ensures rows == old(rows) - {row.number}
    {
      rows := rows - {row.number};
    }
  }

  /** The user table (primary key to its number) and the phone-number table (number to owner). */
  datatype Accounts = Accounts(users: map<nat, string>, phoneNumbers: map<string, nat>, nextId: nat) {
    ghost predicate Valid() {
      && (forall u | u in users :: u < nextId)
      && (forall p | p in phoneNumbers :: phoneNumbers[p] in users)
    }
  }

  /** The user with the least key in `[from, upTo)` whose phone column is `number`. */
  function FirstUser(users: map<nat, string>, number: string, from: nat, upTo: nat): (found: Option<nat>)
    requires from <= upTo
    ensures found.Some? ==>
              && from <= found.value < upTo && found.value in users && users[found.value] == number
              && (forall u | u in users && from <= u < found.value :: users[u] != number)
    ensures found.None? ==> forall u | u in users && from <= u < upTo :: users[u] != number
    decreases upTo - from
  {
    if from == upTo then None
    else if from in users && users[from] == number then Some(from)
    else FirstUser(users, number, from + 1, upTo)
  }

  datatype Resolution = Resolution(accounts: Accounts, user: nat, created: bool)

  function Resolve(a: Accounts, number: string): Resolution {
    if number in a.phoneNumbers then Resolution(a, a.phoneNumbers[number], false)
    else
      var known := FirstUser(a.users, number, 0, a.nextId);
      var user := if known.Some? then known.value else a.nextId;
      Resolution(
        Accounts(if known.Some? then a.users else a.users[user := number],
                 a.phoneNumbers[number := user],
                 if known.Some? then a.nextId else a.nextId + 1),
        user, known.None?)
  }

  /** `u` is the first user with this number. */
  ghost predicate IsFirst(users: map<nat, string>, number: string, u: nat) {
    u in users && users[u] == number && (forall v | v in users && v < u :: users[v] != number)
  }

  /** The user a number belongs to: the one it is linked to, else the first with it, else one not there yet. */
  ghost predicate Rightful(a: Accounts, number: string, user: nat) {
    if number in a.phoneNumbers then user == a.phoneNumbers[number]
    else if number in a.users.Values then IsFirst(a.users, number, user)
    else user !in a.users
  }

  /**
   Resolving returns the user the number belongs to, and creates one exactly when there is none. It
   links the number to that user and leaves every other row and link as it was.
   */
  lemma ResolveKeeps(a: Accounts, number: string)
    requires a.Valid()
    ensures var r := Resolve(a, number);
            && r.accounts.Valid() && a.nextId <= r.accounts.nextId
            && Rightful(a, number, r.user)
            && (r.created <==> number !in a.phoneNumbers && number !in a.users.Values)
            && r.accounts.phoneNumbers == a.phoneNumbers[number := r.user]
            && r.accounts.users == if r.created then a.users[r.user := number] else a.users
  {
    if number !in a.phoneNumbers {
      var known := FirstUser(a.users, number, 0, a.nextId);
      if known.Some? {
        assert a.users[known.value] in a.users.Values;
      }
    }
  }

  class AuthRepository {
    const canon: Canon
    var accounts: Accounts

    constructor (canon: Canon, accounts: Accounts)
      ensures this.canon == canon && this.accounts == accounts
    {
      this.canon := canon;
      this.accounts := accounts;
    }

    method GetOrCreateUserByPhone(phone: string) returns (user: nat, created: bool)
      modifies this
      ensures Resolution(accounts, user, created) == Resolve(old(accounts), canon(phone))
      ensures old(accounts).Valid() ==> Rightful(old(accounts), canon(phone), user)
    {
      var number := canon(phone);
      if number in accounts.phoneNumbers {
        return accounts.phoneNumbers[number], false;
      }
      var known := FirstUser(accounts.users, number, 0, accounts.nextId);
      if known.Some? {
        user, created := known.value, false;
      } else {
        user, created := accounts.nextId, true;
        accounts := accounts.(users := accounts.users[user := number], nextId := user + 1);
      }
      accounts := accounts.(phoneNumbers := accounts.phoneNumbers[number := user]);
    }
  }
}
