/** The two tables the server reads and writes (`prisma.user`, `prisma.campaign`),
    as an immutable value.  Ids are the positions at which rows were created;
    `online` is false when every database call throws. */
module Store {
  import opened Wrappers

  datatype User = User(id: nat, address: string, createdAt: string)

  datatype Campaign = Campaign(
    id: nat,
    title: string,
    description: string,
    recipient: string,
    imageUrl: Option<string>,
    goal: real,
    slug: string,
    totalRaised: real,
    active: bool,
    createdAt: string,
    userId: nat)

  datatype Store = Store(online: bool, users: seq<User>, campaigns: seq<Campaign>)

  /** Ids are row positions; `address` and `slug` are unique columns. */
  predicate Valid(st: Store) {
    && (forall i | 0 <= i < |st.users| :: st.users[i].id == i)
    && (forall i | 0 <= i < |st.campaigns| :: st.campaigns[i].id == i)
    && (forall i, j | 0 <= i < j < |st.users| :: st.users[i].address != st.users[j].address)
    && (forall i, j | 0 <= i < j < |st.campaigns| :: st.campaigns[i].slug != st.campaigns[j].slug)
  }

  /** `prisma.user.findFirst({ where: { address } })`: the earliest matching row. */
  function FindUserByAddress(users: seq<User>, address: string): (r: Option<User>)
    ensures r.None? <==> forall i | 0 <= i < |users| :: users[i].address != address
    ensures r.Some? ==> exists i | 0 <= i < |users| :: users[i] == r.value
                          && r.value.address == address
                          && forall j | 0 <= j < i :: users[j].address != address
  {
    if |users| == 0 then None
    else if users[0].address == address then Some(users[0])
    else
      var r := FindUserByAddress(users[1..], address);
      if r.Some? then
        ghost var i :| 0 <= i < |users[1..]| && users[1..][i] == r.value
                         && r.value.address == address
                         && forall j | 0 <= j < i :: users[1..][j].address != address;
        assert users[i + 1] == r.value;
        r
      else r
  }

  /** `prisma.user.findUnique({ where: { id } })`. */
  function FindUserById(users: seq<User>, id: nat): (r: Option<User>)
    ensures r.None? <==> forall i | 0 <= i < |users| :: users[i].id != id
    ensures r.Some? ==> r.value in users && r.value.id == id
  {
    if |users| == 0 then None
    else if users[0].id == id then Some(users[0])
    else FindUserById(users[1..], id)
  }

  /** `prisma.campaign.findUnique({ where: { slug } })`. */
  function FindCampaignBySlug(campaigns: seq<Campaign>, slug: string): (r: Option<Campaign>)
    ensures r.None? <==> forall i | 0 <= i < |campaigns| :: campaigns[i].slug != slug
    ensures r.Some? ==> r.value in campaigns && r.value.slug == slug
  {
    if |campaigns| == 0 then None
    else if campaigns[0].slug == slug then Some(campaigns[0])
    else FindCampaignBySlug(campaigns[1..], slug)
  }

  /** In a valid store the row with id `i` is the `i`-th row. */
  lemma FindUserByIdIsIndex(st: Store, id: nat)
    requires Valid(st)
    ensures FindUserById(st.users, id) == if id < |st.users| then Some(st.users[id]) else None
  {
    if id < |st.users| {
      var r := FindUserById(st.users, id);
      assert st.users[id].id == id;
      assert r.Some?;
      var k :| 0 <= k < |st.users| && st.users[k] == r.value;
    }
  }

  /** `prisma.user.create({ data: { address } })`: a fresh id and the current time. */
  function CreateUser(st: Store, address: string, now: string): (r: (Store, User))
    ensures r.1 == User(|st.users|, address, now)
    ensures r.0 == st.(users := st.users + [r.1])
  {
    var u := User(|st.users|, address, now);
    (st.(users := st.users + [u]), u)
  }

  /** Lines 30-41 of the sign-in handler: find the user by address, or create one. */
  function LookupOrCreateUser(st: Store, address: string, now: string): (r: (Store, User))
    ensures r.1.address == address
    ensures r.1 in r.0.users
    ensures FindUserByAddress(st.users, address).Some? ==> r.0 == st
    ensures FindUserByAddress(st.users, address).None? ==>
      r.0 == st.(users := st.users + [r.1]) && r.1.id == |st.users|
    ensures Valid(st) ==> Valid(r.0)
  {
    match FindUserByAddress(st.users, address)
    case Some(u) => (st, u)
    case None => CreateUser(st, address, now)
  }

  /** After the call, looking the address up finds the returned row. */
  lemma LookupOrCreateFinds(st: Store, address: string, now: string)
    ensures FindUserByAddress(LookupOrCreateUser(st, address, now).0.users, address)
         == Some(LookupOrCreateUser(st, address, now).1)
  {
    if FindUserByAddress(st.users, address).None? {
      FindAfterAppend(st.users, LookupOrCreateUser(st, address, now).1, address);
    }
  }

  /** A second call for the same address returns the same row and changes nothing. */
  lemma LookupOrCreateIdempotent(st: Store, address: string, now: string, later: string)
    ensures var (st1, u1) := LookupOrCreateUser(st, address, now);
      LookupOrCreateUser(st1, address, later) == (st1, u1)
  {
    LookupOrCreateFinds(st, address, now);
  }

  lemma {:induction false} FindAfterAppend(users: seq<User>, u: User, address: string)
    requires FindUserByAddress(users, address).None? && u.address == address
    ensures FindUserByAddress(users + [u], address) == Some(u)
    decreases |users|
  {
    if |users| == 0 {
      assert users + [u] == [u];
    } else {
      assert (users + [u])[1..] == users[1..] + [u];
      assert users[0].address != address;
      FindAfterAppend(users[1..], u, address);
    }
  }

  /** `prisma.campaign.create`: a fresh id, `totalRaised` 0 and `active` true by
      default; `None` when the slug is already taken (the unique column rejects it). */
  function InsertCampaign(st: Store, title: string, description: string, recipient: string,
                          imageUrl: string, goal: real, slug: string, userId: nat, now: string)
    : (r: Option<(Store, Campaign)>)
    ensures r.None? <==> FindCampaignBySlug(st.campaigns, slug).Some?
    ensures r.Some? ==> var (st1, c) := r.value;
      && c == Campaign(|st.campaigns|, title, description, recipient, Some(imageUrl), goal,
                       slug, 0.0, true, now, userId)
      && st1 == st.(campaigns := st.campaigns + [c])
      && (Valid(st) ==> Valid(st1))
  {
    if FindCampaignBySlug(st.campaigns, slug).Some? then None
    else
      var c := Campaign(|st.campaigns|, title, description, recipient, Some(imageUrl), goal,
                        slug, 0.0, true, now, userId);
      Some((st.(campaigns := st.campaigns + [c]), c))
  }
}
