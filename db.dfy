/** The records the route handlers read and write, and an in-memory store
    standing in for the database: one table of capsules (row `i` has id `i`),
    the share grants, the users, and the comment count of each capsule. */
module Db {
  import opened Wrappers
  import Lists

  datatype AccessMode = Private | Shared | Public

  /** A capsule row; times are milliseconds since the epoch. */
  datatype Capsule = Capsule(
    id: nat,
    userId: string,
    title: string,
    description: Option<string>,
    language: Option<string>,
    codeContent: string,
    note: Option<string>,
    accessMode: AccessMode,
    passHint: Option<string>,
    unlockDate: int,
    isUnlocked: bool,
    isDeleted: bool,
    createdAt: int,
    updatedAt: int)

  /** The fields the capsule listing selects (`CapsuleData`); the dashboard's
      `Capsule` type is the same record. */
  datatype Summary = Summary(
    id: nat,
    title: string,
    description: Option<string>,
    language: Option<string>,
    accessMode: AccessMode,
    unlockDate: int,
    isUnlocked: bool,
    createdAt: int,
    updatedAt: int)

  function ToSummary(c: Capsule): (s: Summary)
    ensures s.id == c.id && s.isUnlocked == c.isUnlocked && s.unlockDate == c.unlockDate
  {
    Summary(c.id, c.title, c.description, c.language, c.accessMode, c.unlockDate,
            c.isUnlocked, c.createdAt, c.updatedAt)
  }

  /** A share grant; the store keeps a set, so a repeated grant collapses. */
  datatype Share = Share(capsuleId: nat, email: string)

  datatype User = User(id: nat, username: string, email: string, password: string, createdAt: int)

  /** `session && session.user.id`: the signed-in user's id, if any. */
  predicate SignedIn(session: Option<string>)
  {
    session.Some? && session.value != []
  }

  /** Row `i` of the table has id `i`. */
  ghost predicate RowsValid(rows: seq<Capsule>)
  {
    forall i :: 0 <= i < |rows| ==> rows[i].id == i
  }

  /** Row ids are unique, so no row occurs twice. */
  lemma RowsNoDup(rows: seq<Capsule>)
    requires RowsValid(rows)
    ensures Lists.NoDup(rows)
  {
    forall i, j | 0 <= i < j < |rows| ensures rows[i] != rows[j] {
      assert rows[i].id == i && rows[j].id == j;
    }
  }

  class Store {
    var capsules: seq<Capsule>
    var shares: set<Share>
    var users: seq<User>
    var comments: map<nat, nat>

    ghost predicate Valid()
      reads this
    {
      RowsValid(capsules) && (forall i :: 0 <= i < |users| ==> users[i].id == i)
    }

    constructor ()
      ensures Valid()
      ensures capsules == [] && shares == {} && users == [] && comments == map[]
    {
      capsules, shares, users, comments := [], {}, [], map[];
    }

    /** `prisma.capsule.create`: the new row gets the next id. */
    method InsertCapsule(c: Capsule) returns (id: nat)
      requires Valid()
      modifies this
      ensures Valid()
      ensures id == old(|capsules|) && capsules == old(capsules) + [c.(id := id)]
      ensures shares == old(shares) && users == old(users) && comments == old(comments)
    {
      id := |capsules|;
      capsules := capsules + [c.(id := id)];
    }

    /** `prisma.capsule.update({ where: { id }, data: { isUnlocked: true } })`. */
    method SetUnlocked(id: nat)
      requires Valid() && id < |capsules|
      modifies this
      ensures Valid()
      ensures capsules == old(capsules)[id := old(capsules)[id].(isUnlocked := true)]
      ensures shares == old(shares) && users == old(users) && comments == old(comments)
    {
      capsules := capsules[id := capsules[id].(isUnlocked := true)];
    }

    /** `prisma.capsuleShare.createMany({ data, skipDuplicates: true })`. */
    method AddShares(grants: set<Share>)
      requires Valid()
      modifies this
      ensures Valid()
      ensures shares == old(shares) + grants
      ensures capsules == old(capsules) && users == old(users) && comments == old(comments)
    {
      shares := shares + grants;
    }

    /** `prisma.user.create`: the new user gets the next id. */
    method InsertUser(u: User) returns (id: nat)
      requires Valid()
      modifies this
      ensures Valid()
      ensures id == old(|users|) && users == old(users) + [u.(id := id)]
      ensures capsules == old(capsules) && shares == old(shares) && comments == old(comments)
    {
      id := |users|;
      users := users + [u.(id := id)];
    }
  }
}
