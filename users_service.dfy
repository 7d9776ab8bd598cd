/**
 * UsersService: the users table and every operation the rest of the
 * application performs on it. Reads are functions of the table; the four
 * writes are methods of the class that owns the table.
 */
module Users {
  import opened Wrappers
  import opened Exceptions
  import opened Entity
  import opened UsersDto

  /** The exception findOne and update throw for an id with no record. */
  function NotFoundError(id: string): Exception {
    NotFound("User with id " + id + " not found")
  }

  /** What the database raises when a write would duplicate an email; the services do not raise it. */
  const UniqueViolation: Exception := QueryFailed("duplicate key value violates unique constraint on email")

  /** The fields signup passes to create (a `Partial<User>`). */
  datatype NewUser = NewUser(email: string, password: string, firstName: string, lastName: string)

  predicate EmailTaken(t: Table, email: string) {
    exists id :: id in t && t[id].email == email
  }

  /** Some record other than `id` already holds `email`. */
  predicate EmailTakenByOther(t: Table, id: string, email: string) {
    exists other :: other in t && other != id && t[other].email == email
  }

  /** The key of the one record holding `email`. */
  function KeyOfEmail(t: Table, email: string): (id: string)
    requires UniqueEmails(t) && EmailTaken(t, email)
    ensures id in t && t[id].email == email
  {
    var id :| id in t && t[id].email == email; id
  }

  // ---------------------------------------------------------------- reads

  /** findByEmail: the record whose email is `email`, default projection, or null. */
  function FindByEmail(t: Table, email: string): (r: Option<PublicUser>)
    requires UniqueEmails(t)
    ensures r.None? <==> !EmailTaken(t, email)
    ensures forall id :: id in t && t[id].email == email ==> r == Some(Public(t[id]))
  {
    if EmailTaken(t, email) then Some(Public(t[KeyOfEmail(t, email)])) else None
  }

  /** findByEmailWithPassword: the only read that exposes the stored password digest. */
  function FindByEmailWithPassword(t: Table, email: string): (r: Option<Credentials>)
    requires UniqueEmails(t)
    ensures r.None? <==> !EmailTaken(t, email)
    ensures forall id :: id in t && t[id].email == email ==> r == Some(CredentialsOf(t[id]))
  {
    if EmailTaken(t, email) then Some(CredentialsOf(t[KeyOfEmail(t, email)])) else None
  }

  /** findByEmailWithRefreshToken: id, email and the stored refresh-token digest. */
  function FindByEmailWithRefreshToken(t: Table, email: string): (r: Option<TokenRecord>)
    requires UniqueEmails(t)
    ensures r.None? <==> !EmailTaken(t, email)
    ensures forall id :: id in t && t[id].email == email ==> r == Some(TokenRecordOf(t[id]))
  {
    if EmailTaken(t, email) then Some(TokenRecordOf(t[KeyOfEmail(t, email)])) else None
  }

  /** findOne: the record under `id` without its password, or NotFound. */
  function FindOne(t: Table, id: string): (r: Result<PublicUser, Exception>)
    ensures r.Err? <==> id !in t
    ensures r.Err? ==> r.error == NotFoundError(id)
    ensures r.Ok? ==> r.value == Public(t[id])
  {
    if id in t then Ok(Public(t[id])) else Err(NotFoundError(id))
  }

  /**
   * findAll: one default-projected entry per stored record. The database returns
   * the rows in an order of its choosing; the loop takes the keys in any order.
   */
  method FindAll(t: Table) returns (r: seq<PublicUser>)
    requires KeyedById(t)
    ensures |r| == |t|
    ensures forall i :: 0 <= i < |r| ==> r[i].id in t && r[i] == Public(t[r[i].id])
    ensures forall id :: id in t ==> exists i :: 0 <= i < |r| && r[i].id == id
    ensures forall i, j :: 0 <= i < j < |r| ==> r[i].id != r[j].id
  {
    r := [];
    var rest := t.Keys;
    while rest != {}
      invariant rest <= t.Keys
      invariant |r| + |rest| == |t.Keys|
      invariant forall i :: 0 <= i < |r| ==> r[i].id in t && r[i].id !in rest && r[i] == Public(t[r[i].id])
      invariant forall id :: id in t && id !in rest ==> exists i :: 0 <= i < |r| && r[i].id == id
      invariant forall i, j :: 0 <= i < j < |r| ==> r[i].id != r[j].id
      decreases rest
    {
      var id :| id in rest;
      ghost var before := r;
      r := r + [Public(t[id])];
      rest := rest - {id};
      forall other | other in t && other !in rest
        ensures exists i :: 0 <= i < |r| && r[i].id == other
      {
        if other == id {
          assert r[|r| - 1].id == other;
        } else {
          var i :| 0 <= i < |before| && before[i].id == other;
          assert r[i].id == other;
        }
      }
    }
  }

  // ---------------------------------------------------------------- writes, as functions of the table

  /** The row save() inserts for `data` under the generated `id` at time `now`; no refresh token yet. */
  function NewRecord(data: NewUser, id: string, now: nat): User {
    User(id, data.email, data.password, data.firstName, data.lastName, None, now, now)
  }

  /** The row `update(id, dto)` leaves: the fields present in dto overwritten, updatedAt refreshed. */
  function Patched(u: User, dto: UpdateUserDto, now: nat): User {
    u.(email := dto.email.GetOr(u.email),
       firstName := dto.firstName.GetOr(u.firstName),
       lastName := dto.lastName.GetOr(u.lastName),
       updatedAt := now)
  }

  /** update would set an email that another record holds, which the unique index rejects. */
  predicate UpdateConflicts(t: Table, id: string, dto: UpdateUserDto) {
    dto.email.Some? && EmailTakenByOther(t, id, dto.email.value)
  }

  /** The table after `update(id, { refreshToken: token })`: a missing id matches no row. */
  function WithRefreshToken(t: Table, id: string, token: string, now: nat): (r: Table)
    ensures r.Keys == t.Keys
    ensures forall other :: other in t && other != id ==> r[other] == t[other]
    ensures id in t ==>
      && r[id].refreshToken == Some(token)
      && r[id].updatedAt == now
      && r[id].(refreshToken := t[id].refreshToken, updatedAt := t[id].updatedAt) == t[id]
  {
    if id in t then t[id := t[id].(refreshToken := Some(token), updatedAt := now)] else t
  }

  // ---------------------------------------------------------------- what those writes keep

  lemma CreateKeepsInvariant(t: Table, clock: nat, id: string, data: NewUser)
    requires Invariant(t, clock) && id !in t && !EmailTaken(t, data.email)
    ensures Invariant(t[id := NewRecord(data, id, clock)], clock + 1)
  {
  }

  lemma PatchKeepsInvariant(t: Table, clock: nat, id: string, dto: UpdateUserDto)
    requires Invariant(t, clock) && id in t && !UpdateConflicts(t, id, dto)
    ensures Invariant(t[id := Patched(t[id], dto, clock)], clock + 1)
  {
  }

  lemma SetRefreshTokenKeepsInvariant(t: Table, clock: nat, id: string, token: string)
    requires Invariant(t, clock)
    ensures Invariant(WithRefreshToken(t, id, token, clock), if id in t then clock + 1 else clock)
  {
  }

  /** update touches only the fields present in the body: undoing those four fields gives back the old row. */
  lemma PatchFrame(u: User, dto: UpdateUserDto, now: nat)
    ensures Patched(u, dto, now).(email := u.email, firstName := u.firstName, lastName := u.lastName, updatedAt := u.updatedAt) == u
    ensures dto.email.Some? ==> Patched(u, dto, now).email == dto.email.value
    ensures dto.firstName.Some? ==> Patched(u, dto, now).firstName == dto.firstName.value
    ensures dto.lastName.Some? ==> Patched(u, dto, now).lastName == dto.lastName.value
  {
  }

  /** An empty body changes nothing but updatedAt, and a repeated update changes nothing further. */
  lemma PatchEmptyAndRepeated(u: User, dto: UpdateUserDto, now: nat)
    ensures Patched(u, EmptyUpdate, now) == u.(updatedAt := now)
    ensures Patched(Patched(u, dto, now), dto, now) == Patched(u, dto, now)
  {
  }

  /** createdAt never moves; under the invariant every update moves updatedAt strictly forward. */
  lemma UpdateAdvancesTimestamp(t: Table, clock: nat, id: string, dto: UpdateUserDto)
    requires Invariant(t, clock) && id in t
    ensures Patched(t[id], dto, clock).createdAt == t[id].createdAt
    ensures Patched(t[id], dto, clock).updatedAt > t[id].updatedAt
  {
  }

  /** Deleting one record makes findOne fail for it and for no other id. */
  lemma RemoveIsolated(t: Table, id: string, other: string)
    requires other != id
    ensures FindOne(t - {id}, id) == Err(NotFoundError(id))
    ensures FindOne(t - {id}, other) == FindOne(t, other)
  {
  }

  /** The database's uuid generator, modelled as any string that is not yet a key: one longer than every key. */
  method GenerateId(used: set<string>) returns (id: string)
    ensures id !in used
  {
    var longest: nat := 0;
    var rest := used;
    while rest != {}
      invariant rest <= used
      invariant forall k :: k in used && k !in rest ==> |k| <= longest
      decreases rest
    {
      var k :| k in rest;
      if |k| > longest {
        longest := |k|;
      }
      rest := rest - {k};
    }
    id := seq(longest + 1, _ => 'u');
  }

  // ---------------------------------------------------------------- the service object

  class UsersService {
    /** The users table. */
    var table: Table
    /** The logical clock that stamps createdAt and updatedAt; it advances on every row written. */
    var clock: nat

    ghost predicate Valid()
      reads this
    {
      Invariant(table, clock)
    }

    constructor ()
      ensures Valid() && table == map[] && clock == 0
    {
      table := map[];
      clock := 0;
    }

    /**
     * create: inserts one record under a fresh id and returns it whole. The unique index
     * rejects a duplicate email; the service itself checks nothing.
     */
    method Create(data: NewUser) returns (r: Result<User, Exception>)
      requires Valid()
      modifies this
      ensures Valid()
      ensures r.Err? <==> EmailTaken(old(table), data.email)
      ensures r.Err? ==> r.error == UniqueViolation && table == old(table) && clock == old(clock)
      ensures r.Ok? ==>
        && r.value.id !in old(table)
        && r.value == NewRecord(data, r.value.id, old(clock))
        && table == old(table)[r.value.id := r.value]
        && clock == old(clock) + 1
    {
      if EmailTaken(table, data.email) {
        return Err(UniqueViolation);
      }
      var id := GenerateId(table.Keys);
      CreateKeepsInvariant(table, clock, id, data);
      var user := NewRecord(data, id, clock);
      table := table[id := user];
      clock := clock + 1;
      r := Ok(user);
    }

    /**
     * update: overwrites the fields present in dto, then reads the row back. A missing id
     * matches no row, so the read-back fails with NotFound and nothing changed.
     */
    method Update(id: string, dto: UpdateUserDto) returns (r: Result<PublicUser, Exception>)
      requires Valid()
      modifies this
      ensures Valid()
      ensures id !in old(table) ==> r == Err(NotFoundError(id)) && table == old(table) && clock == old(clock)
      ensures id in old(table) && UpdateConflicts(old(table), id, dto) ==>
        r == Err(UniqueViolation) && table == old(table) && clock == old(clock)
      ensures id in old(table) && !UpdateConflicts(old(table), id, dto) ==>
        && table == old(table)[id := Patched(old(table)[id], dto, old(clock))]
        && clock == old(clock) + 1
        && r == Ok(Public(table[id]))
    {
      if id in table {
        if UpdateConflicts(table, id, dto) {
          return Err(UniqueViolation);
        }
        PatchKeepsInvariant(table, clock, id, dto);
        table := table[id := Patched(table[id], dto, clock)];
        clock := clock + 1;
      }
      r := FindOne(table, id);
    }

    /** remove: deletes exactly the record under id; NotFound, and no change, when there is none. */
    method Remove(id: string) returns (r: Outcome<Exception>)
      requires Valid()
      modifies this
      ensures Valid()
      ensures id in old(table) ==> r == Pass && table == old(table) - {id}
      ensures id !in old(table) ==> r == Fail(NotFoundError(id)) && table == old(table)
      ensures clock == old(clock)
      ensures FindOne(table, id) == Err(NotFoundError(id))
    {
      if id !in table {
        return Fail(NotFoundError(id));
      }
      table := table - {id};
      r := Pass;
    }

    /** updateRefreshToken: sets that one record's refreshToken; a missing id matches no row and is not an error. */
    method UpdateRefreshToken(userId: string, token: string)
      requires Valid()
      modifies this
      ensures Valid()
      ensures table == WithRefreshToken(old(table), userId, token, old(clock))
      ensures clock == if userId in old(table) then old(clock) + 1 else old(clock)
    {
      SetRefreshTokenKeepsInvariant(table, clock, userId, token);
      if userId in table {
        table := WithRefreshToken(table, userId, token, clock);
        clock := clock + 1;
      }
    }
  }
}
