/**
 * The User entity: one row of the users table, the projections the service
 * reads, and the rules the table keeps (primary key, unique email).
 */
module Entity {
  import opened Wrappers

  /**
   * A stored user. `password` holds the bcrypt digest; `refreshToken` the digest
   * of the last refresh token issued, absent until the first login. The entity
   * declares no refreshToken column, but the service reads and writes one, so the
   * model carries it as an optional column. `createdAt` and `updatedAt` are readings
   * of the store's logical clock. firstName and lastName are plain, required strings.
   */
  datatype User = User(
    id: string,
    email: string,
    password: string,
    firstName: string,
    lastName: string,
    refreshToken: Option<string>,
    createdAt: nat,
    updatedAt: nat)

  /**
   * What a default read returns: every declared column except password (declared
   * `select: false`); refreshToken is not a declared column, so it is not selected either.
   */
  datatype PublicUser = PublicUser(
    id: string,
    email: string,
    firstName: string,
    lastName: string,
    createdAt: nat,
    updatedAt: nat)

  /** The explicit projection `select: ['id', 'email', 'password']`. */
  datatype Credentials = Credentials(id: string, email: string, password: string)

  /** The explicit projection `select: ['id', 'email', 'refreshToken']`. */
  datatype TokenRecord = TokenRecord(id: string, email: string, refreshToken: Option<string>)

  function Public(u: User): PublicUser {
    PublicUser(u.id, u.email, u.firstName, u.lastName, u.createdAt, u.updatedAt)
  }

  function CredentialsOf(u: User): Credentials {
    Credentials(u.id, u.email, u.password)
  }

  function TokenRecordOf(u: User): TokenRecord {
    TokenRecord(u.id, u.email, u.refreshToken)
  }

  /** The users table, keyed by primary key. */
  type Table = map<string, User>

  /** Each record sits under its own id, so no two records share an id. */
  ghost predicate KeyedById(t: Table) {
    forall id :: id in t ==> t[id].id == id
  }

  /** The unique index on email. */
  ghost predicate UniqueEmails(t: Table) {
    forall a, b :: a in t && b in t && t[a].email == t[b].email ==> a == b
  }

  ghost predicate Wellformed(t: Table) {
    KeyedById(t) && UniqueEmails(t)
  }

  /** Every timestamp is a past reading of the clock, and no record was updated before it was created. */
  ghost predicate Stamped(t: Table, clock: nat) {
    forall id :: id in t ==> t[id].createdAt <= t[id].updatedAt < clock
  }

  /** The invariant of the users table at logical time `clock`. */
  ghost predicate Invariant(t: Table, clock: nat) {
    Wellformed(t) && Stamped(t, clock)
  }

  /** The default projection hides exactly password and refreshToken: records that differ only there read the same. */
  lemma PublicHidesSecrets(u: User, v: User)
    ensures Public(u) == Public(v) <==> u.(password := v.password, refreshToken := v.refreshToken) == v
  {
  }

  /** Under the unique index, a distinct email count equals the record count. */
  lemma {:induction false} EmailsAsManyAsRecords(t: Table)
    requires UniqueEmails(t)
    ensures |set id | id in t :: t[id].email| == |t|
  {
    if t != map[] {
      var k :| k in t;
      var rest := t - {k};
      assert UniqueEmails(rest);
      EmailsAsManyAsRecords(rest);
      var all := set id | id in t :: t[id].email;
      var others := set id | id in rest :: rest[id].email;
      forall e | e in all ensures e in others + {t[k].email} {
        var id :| id in t && t[id].email == e;
        if id != k { assert id in rest; }
      }
      assert all == others + {t[k].email};
      assert t[k].email !in others;
      assert |rest| == |t| - 1;
    }
  }
}
