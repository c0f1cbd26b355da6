/** Who may use a workspace: its owner, claimed members and pending invitations by email. */
module Membership {
  import opened Sequences
  import opened Text
  import opened Wrappers

  const BAD_REQUEST := 400
  const NOT_FOUND := 404
  const CONFLICT := 409

  datatype Member = Member(userId: Option<string>, email: Option<string>, joinedAt: Option<string>, invitedAt: Option<string>,
                           invitedBy: Option<string>)

  datatype Meta = Meta(ownerId: Option<string>, ownerEmail: Option<string>, members: seq<Member>, updatedAt: string)

  // ---------- reading the record ----------

  /** A blank or absent text counts as absent. */
  function Clean(s: Option<string>): Option<string> {
    if s.None? || Strip(s.value) == "" then None else Some(Strip(s.value))
  }

  function NormalizeEmail(email: Option<string>): Option<string> {
    if Clean(email).None? then None else Some(Lower(Clean(email).value))
  }

  function NormalizeMember(m: Member): Member {
    m.(userId := Clean(m.userId), email := NormalizeEmail(m.email))
  }

  /** Entries without an id and an email are dropped. */
  function NormalizeMembers(members: seq<Member>): seq<Member> {
    if members == [] then []
    else
      var first := NormalizeMember(members[0]);
      (if first.userId.None? && first.email.None? then [] else [first]) + NormalizeMembers(members[1..])
  }

  function Loaded(m: Meta): Meta {
    m.(members := NormalizeMembers(m.members))
  }

  function OwnerId(m: Meta): Option<string> {
    Clean(m.ownerId)
  }

  function OwnerEmail(m: Meta): Option<string> {
    NormalizeEmail(m.ownerEmail)
  }

  lemma CleanIdempotent(s: Option<string>)
    ensures Clean(Clean(s)) == Clean(s)
  {
    if s.Some? { StripIdempotent(s.value); }
  }

  lemma EmailIdempotent(s: Option<string>)
    ensures NormalizeEmail(NormalizeEmail(s)) == NormalizeEmail(s)
  {
    if Clean(s).Some? {
      StripLower(Strip(s.value));
      StripIdempotent(s.value);
      LowerIdempotent(Strip(s.value));
    }
  }

  predicate IsNormal(m: Member) {
    NormalizeMember(m) == m && (m.userId.Some? || m.email.Some?)
  }

  predicate AreNormal(members: seq<Member>) {
    forall i | 0 <= i < |members| :: IsNormal(members[i])
  }

  /** What is read is normal, and a normal list is read as it is. */
  lemma {:induction false} LoadedIsNormal(members: seq<Member>)
    ensures AreNormal(NormalizeMembers(members))
    ensures AreNormal(members) ==> NormalizeMembers(members) == members
  {
    hide Clean, NormalizeEmail;
    if members != [] {
      CleanIdempotent(members[0].userId);
      EmailIdempotent(members[0].email);
      LoadedIsNormal(members[1..]);
      if AreNormal(members) {
        assert forall i | 0 <= i < |members| - 1 :: members[1..][i] == members[i + 1];
        assert members == [members[0]] + members[1..];
      }
    }
  }

  // ---------- the operations ----------

  datatype Query = ByUser(id: string) | ByInvitation(email: string) | ByKey(key: string, address: Option<string>)

  predicate Matches(m: Member, q: Query) {
    match q
    case ByUser(id) => m.userId == Some(id)
    case ByInvitation(email) => m.userId.None? && m.email == Some(email)
    case ByKey(key, email) => m.userId == Some(key) || (email.Some? && m.email == email)
  }

  function First(members: seq<Member>, q: Query): (k: nat)
    ensures k <= |members|
    ensures k < |members| ==> Matches(members[k], q)
    ensures forall i | 0 <= i < k :: !Matches(members[i], q)
  {
    if members == [] || Matches(members[0], q) then 0
    else
      var k := 1 + First(members[1..], q);
      assert forall i | 0 < i < k :: members[i] == members[1..][i - 1];
      k
  }

  predicate Has(members: seq<Member>, q: Query) {
    exists i | 0 <= i < |members| :: Matches(members[i], q)
  }

  /** The id, once given, must be the owner's or a member's; otherwise the first invitation to
      the email is claimed. */
  function Access(m: Meta, userId: Option<string>, email: Option<string>, now: string): Result<Meta, int> {
    var actor := Clean(userId);
    var actorEmail := NormalizeEmail(email);
    if OwnerId(m).None? then (if actor.Some? then Failure(NOT_FOUND) else Success(m))
    else if actor.None? then Failure(NOT_FOUND)
    else if actor == OwnerId(m) || Has(m.members, ByUser(actor.value)) then Success(m)
    else if actorEmail.Some? && Has(m.members, ByInvitation(actorEmail.value)) then
      var k := First(m.members, ByInvitation(actorEmail.value));
      Success(m.(members := m.members[k := m.members[k].(userId := actor, joinedAt := Some(now))], updatedAt := now))
    else Failure(NOT_FOUND)
  }

  predicate EmailTaken(members: seq<Member>, email: string) {
    exists i | 0 <= i < |members| :: members[i].email == Some(email)
  }

  function Invite(m: Meta, inviter: string, email: string, now: string): Result<Meta, int> {
    var address := NormalizeEmail(Some(email));
    if address.None? then Failure(BAD_REQUEST)
    else if OwnerEmail(m) == address || EmailTaken(m.members, address.value) then Failure(CONFLICT)
    else
      var entry := Member(None, address, None, Some(now), if inviter == "" then None else Some(inviter));
      Success(m.(members := m.members + [entry], updatedAt := now))
  }

  function Remove(m: Meta, key: string, now: string): Result<Meta, int> {
    var target := Clean(Some(key));
    var address := NormalizeEmail(target);
    if target.None? then Failure(BAD_REQUEST)
    else if target == OwnerId(m) || (OwnerEmail(m).Some? && address == OwnerEmail(m)) then Failure(BAD_REQUEST)
    else
      var k := First(m.members, ByKey(target.value, address));
      if k == |m.members| then Failure(NOT_FOUND)
      else Success(m.(members := Without(m.members, k), updatedAt := now))
  }

  function Transfer(m: Meta, newOwner: string, now: string): Result<Meta, int> {
    var target := Clean(Some(newOwner));
    if target.None? || OwnerId(m).None? then Failure(BAD_REQUEST)
    else if target == OwnerId(m) then Failure(CONFLICT)
    else
      var k := First(m.members, ByUser(target.value));
      if k == |m.members| then Failure(BAD_REQUEST)
      else
        var former := Member(OwnerId(m), OwnerEmail(m), Some(now), None, None);
        Success(Meta(target, m.members[k].email, Without(m.members, k) + [former], now))
  }

  function Create(ownerId: Option<string>, ownerEmail: Option<string>, now: string): Meta {
    Meta(Clean(ownerId), Clean(ownerEmail), [], now)
  }

  // ---------- runs ----------

  datatype Action =
    | Enter(userId: Option<string>, email: Option<string>, now: string)
    | Add(inviter: string, address: string, now: string)
    | Drop(key: string, now: string)
    | HandOver(newOwner: string, now: string)

  function Attempt(m: Meta, a: Action): Result<Meta, int> {
    match a
    case Enter(userId, email, now) => Access(m, userId, email, now)
    case Add(inviter, address, now) => Invite(m, inviter, address, now)
    case Drop(key, now) => Remove(m, key, now)
    case HandOver(newOwner, now) => Transfer(m, newOwner, now)
  }

  /** A refused action changes nothing. */
  function Next(m: Meta, a: Action): Meta {
    match Attempt(m, a)
    case Success(n) => n
    case Failure(_) => m
  }

  function Run(m: Meta, actions: seq<Action>): Meta
    decreases |actions|
  {
    if actions == [] then m else Run(Next(m, actions[0]), actions[1..])
  }

  /** The owner and the members, each once, as pairs of id and email. */
  datatype Principal = Principal(userId: Option<string>, email: Option<string>)

  function Owner(m: Meta): Principal {
    Principal(OwnerId(m), OwnerEmail(m))
  }

  function Entry(m: Member): Principal {
    Principal(m.userId, m.email)
  }

  function Entries(members: seq<Member>): seq<Principal> {
    if members == [] then [] else [Entry(members[0])] + Entries(members[1..])
  }

  predicate Differ(p: Principal, q: Principal) {
    (p.userId.Some? ==> p.userId != q.userId) && (p.email.Some? ==> p.email != q.email)
  }

  /** Ids and emails of the owner and of all entries are pairwise distinct. */
  predicate AreDistinct(m: Meta) {
    && (forall i | 0 <= i < |m.members| :: Differ(Owner(m), Entry(m.members[i])))
    && (forall i, j | 0 <= i < j < |m.members| :: Differ(Entry(m.members[i]), Entry(m.members[j])))
  }

  predicate Inv(m: Meta) {
    AreNormal(m.members) && AreDistinct(m)
  }

  /** The part of the invariant that concerns one entry. */
  predicate Fits(p: Principal, m: Meta) {
    Differ(Owner(m), p) && forall i | 0 <= i < |m.members| :: Differ(Entry(m.members[i]), p)
  }

  lemma CleanMeans(s: Option<string>)
    ensures Clean(Clean(s)) == Clean(s)
    ensures Clean(s).Some? ==> Clean(s).value != ""
  {
    CleanIdempotent(s);
  }

  /** A step leaves the fields of the owner normal: reading them again changes nothing. */
  lemma EntryNormal(userId: Option<string>, email: Option<string>, m: Member)
    requires m.userId == Clean(userId) && m.email == NormalizeEmail(email) && (m.userId.Some? || m.email.Some?)
    ensures IsNormal(m)
  {
    hide Clean, NormalizeEmail;
    CleanIdempotent(userId);
    EmailIdempotent(email);
  }

  lemma AccessKeeps(m: Meta, userId: Option<string>, email: Option<string>, now: string)
    requires Inv(m) && Access(m, userId, email, now).Success?
    ensures Inv(Access(m, userId, email, now).value)
  {
    hide Clean, NormalizeEmail;
    var n, actor, address := Access(m, userId, email, now).value, Clean(userId), NormalizeEmail(email);
    CleanMeans(userId);
    if n != m {
      var k := First(m.members, ByInvitation(address.value));
      assert n.members == m.members[k := n.members[k]];
      forall i | 0 <= i < |m.members| ensures m.members[i].userId != actor {
        assert !Matches(m.members[i], ByUser(actor.value));
      }
    }
  }

  lemma InviteKeeps(m: Meta, inviter: string, email: string, now: string)
    requires Inv(m) && Invite(m, inviter, email, now).Success?
    ensures Inv(Invite(m, inviter, email, now).value)
  {
    hide Clean, NormalizeEmail;
    var n, address := Invite(m, inviter, email, now).value, NormalizeEmail(Some(email));
    var last := n.members[|m.members|];
    CleanNone();
    EntryNormal(None, Some(email), last);
    forall i | 0 <= i < |m.members| ensures Differ(Entry(m.members[i]), Entry(last)) {
      assert m.members[i].email != Some(address.value);
    }
  }

  lemma CleanNone()
    ensures Clean(None) == None
  {
  }

  lemma RemovedKeeps(m: Meta, k: nat, n: Meta)
    requires Inv(m) && k < |m.members| && n == m.(members := Without(m.members, k), updatedAt := n.updatedAt)
    ensures Inv(n)
  {
    hide Clean, NormalizeEmail, Differ;
    forall i | 0 <= i < |n.members| ensures n.members[i] == m.members[if i < k then i else i + 1] {
    }
  }

  lemma TransferKeeps(m: Meta, newOwner: string, now: string)
    requires Inv(m) && Transfer(m, newOwner, now).Success?
    ensures Inv(Transfer(m, newOwner, now).value) && OwnerId(m).Some?
    ensures OwnerId(Transfer(m, newOwner, now).value) == Clean(Some(newOwner))
    ensures OwnerEmail(Transfer(m, newOwner, now).value) == m.members[First(m.members, ByUser(Clean(Some(newOwner)).value))].email
  {
    hide Clean, NormalizeEmail;
    var n, target := Transfer(m, newOwner, now).value, Clean(Some(newOwner));
    var k := First(m.members, ByUser(target.value));
    var rest := Without(m.members, k);
    RemovedKeeps(m, k, m.(members := rest));
    CleanIdempotent(Some(newOwner));
    assert IsNormal(m.members[k]);
    EmailIdempotent(m.members[k].email);
    var last := n.members[|rest|];
    EntryNormal(m.ownerId, m.ownerEmail, last);
    assert Owner(n) == Entry(m.members[k]);
    forall i | 0 <= i < |rest| ensures Differ(Entry(rest[i]), Entry(last)) && Differ(Owner(n), Entry(rest[i])) {
      var j := if i < k then i else i + 1;
      assert rest[i] == m.members[j];
    }
  }

  lemma StepKeeps(m: Meta, a: Action)
    requires Inv(m)
    ensures Inv(Next(m, a))
  {
    hide Inv, Access, Invite, Transfer;
    if Attempt(m, a).Success? {
      match a
      case Enter(userId, email, now) => AccessKeeps(m, userId, email, now);
      case Add(inviter, address, now) => InviteKeeps(m, inviter, address, now);
      case Drop(key, now) =>
        RemovedKeeps(m, First(m.members, ByKey(Clean(Some(key)).value, NormalizeEmail(Clean(Some(key))))), Next(m, a));
      case HandOver(newOwner, now) => TransferKeeps(m, newOwner, now);
    }
  }

  /** Ownership moves only by a hand-over and never ends. */
  lemma OwnerStep(m: Meta, a: Action)
    requires Inv(m)
    ensures OwnerId(m).Some? <==> OwnerId(Next(m, a)).Some?
    ensures OwnerId(Next(m, a)) != OwnerId(m) ==>
              a.HandOver? && exists i :: 0 <= i < |m.members| && m.members[i].userId == OwnerId(Next(m, a))
  {
    hide Clean, NormalizeEmail, Inv;
    if a.HandOver? && Attempt(m, a).Success? {
      TransferKeeps(m, a.newOwner, a.now);
    }
  }

  /** Over every run from a new workspace ids and emails stay distinct, an owned workspace
      keeps exactly one owner, who is not among its members, and what is stored is what is
      read back. */
  lemma {:induction false} RunKeeps(m: Meta, actions: seq<Action>)
    requires Inv(m)
    ensures var n := Run(m, actions);
            && Inv(n) && Loaded(n) == n
            && (OwnerId(m).Some? <==> OwnerId(n).Some?)
            && (OwnerId(n).Some? ==> forall i | 0 <= i < |n.members| :: n.members[i].userId != OwnerId(n))
    decreases |actions|
  {
    hide Inv, Next;
    if actions == [] {
      LoadedAsIs(m);
      if OwnerId(m).Some? { OwnerIsNoMember(m); }
    } else {
      StepKeeps(m, actions[0]);
      OwnerStep(m, actions[0]);
      RunKeeps(Next(m, actions[0]), actions[1..]);
    }
  }

  lemma LoadedAsIs(m: Meta)
    requires Inv(m)
    ensures Loaded(m) == m
  {
    LoadedIsNormal(m.members);
  }

  lemma OwnerIsNoMember(m: Meta)
    requires Inv(m) && OwnerId(m).Some?
    ensures forall i | 0 <= i < |m.members| :: m.members[i].userId != OwnerId(m)
  {
    hide Clean, NormalizeEmail;
    forall i | 0 <= i < |m.members| ensures m.members[i].userId != OwnerId(m) {
      assert Differ(Owner(m), Entry(m.members[i]));
    }
  }

  lemma CreatedHolds(ownerId: Option<string>, ownerEmail: Option<string>, now: string)
    ensures Inv(Create(ownerId, ownerEmail, now)) && OwnerId(Create(ownerId, ownerEmail, now)) == Clean(ownerId)
    ensures OwnerEmail(Create(ownerId, ownerEmail, now)) == NormalizeEmail(ownerEmail) && Create(ownerId, ownerEmail, now).members == []
  {
    hide Strip;
    CleanIdempotent(ownerId);
    CleanIdempotent(ownerEmail);
  }

  // ---------- access is conserved ----------

  predicate IsMember(m: Meta, user: string) {
    exists i | 0 <= i < |m.members| :: m.members[i].userId == Some(user)
  }

  /** An entry without an id is pending for this email. */
  predicate IsInvited(m: Meta, email: string) {
    exists i | 0 <= i < |m.members| :: m.members[i].userId.None? && m.members[i].email == Some(email)
  }

  lemma HasMeans(m: Meta, user: string, email: string)
    ensures Has(m.members, ByUser(user)) <==> IsMember(m, user)
    ensures Has(m.members, ByInvitation(email)) <==> IsInvited(m, email)
  {
    assert forall i | 0 <= i < |m.members| :: Matches(m.members[i], ByUser(user)) <==> m.members[i].userId == Some(user);
    assert forall i | 0 <= i < |m.members| ::
        Matches(m.members[i], ByInvitation(email)) <==> m.members[i].userId.None? && m.members[i].email == Some(email);
  }

  /** The user may enter without claiming an invitation. */
  predicate HasAccess(m: Meta, user: string) {
    OwnerId(m).Some? && (OwnerId(m).value == user || IsMember(m, user))
  }

  /** A workspace without an owner admits only requests without an id; an owned one admits a
      user exactly when they have access or an invitation is pending for their email. */
  lemma AccessMeans(m: Meta, userId: Option<string>, email: Option<string>, now: string)
    ensures Access(m, userId, email, now).Success?
        <==> match Clean(userId)
             case None => OwnerId(m).None?
             case Some(user) =>
               OwnerId(m).Some?
               && (HasAccess(m, user) || (NormalizeEmail(email).Some? && IsInvited(m, NormalizeEmail(email).value)))
  {
    hide Clean, NormalizeEmail, Has, IsMember, IsInvited;
    if Clean(userId).Some? {
      HasMeans(m, Clean(userId).value, if NormalizeEmail(email).Some? then NormalizeEmail(email).value else "");
    }
  }

  /** Who has access changes nothing by entering. Anybody else who enters an owned workspace
      claims the first invitation to their email: that entry gets their id and the time. A
      refusal has code 404. */
  lemma AccessChanges(m: Meta, user: string, email: Option<string>, now: string)
    requires Clean(Some(user)) == Some(user)
    ensures var r := Access(m, Some(user), email, now);
            && (r.Failure? ==> r.error == 404)
            && (HasAccess(m, user) ==> r == Success(m))
            && (r.Success? && !HasAccess(m, user) ==>
                  exists k: nat :: k < |m.members| && NormalizeEmail(email).Some?
                    && m.members[k].userId.None? && m.members[k].email == NormalizeEmail(email)
                    && (forall i | 0 <= i < k :: m.members[i].userId.Some? || m.members[i].email != NormalizeEmail(email))
                    && r.value == m.(members := m.members[k := m.members[k].(userId := Some(user), joinedAt := Some(now))],
                                     updatedAt := now))
  {
    hide Clean, NormalizeEmail;
    HasMeans(m, user, if NormalizeEmail(email).Some? then NormalizeEmail(email).value else "");
    if NormalizeEmail(email).Some? {
      var k := First(m.members, ByInvitation(NormalizeEmail(email).value));
      assert forall i | 0 <= i < k :: !Matches(m.members[i], ByInvitation(NormalizeEmail(email).value));
    }
  }

  /** The first entry with the stripped key as its id or its lower-case form as its email. */
  predicate IsFirstFor(m: Meta, key: string, k: nat) {
    && k < |m.members|
    && (m.members[k].userId == Some(Strip(key)) || m.members[k].email == Some(Lower(Strip(key))))
    && forall i | 0 <= i < k :: m.members[i].userId != Some(Strip(key)) && m.members[i].email != Some(Lower(Strip(key)))
  }

  lemma KeyMeans(key: string)
    ensures Clean(Some(key)) == if Strip(key) == "" then None else Some(Strip(key))
    ensures Strip(key) != "" ==> NormalizeEmail(Clean(Some(key))) == Some(Lower(Strip(key)))
  {
    hide Strip, Lower;
    StripIdempotent(key);
  }

  lemma FirstFor(m: Meta, key: string, k: nat)
    requires Strip(key) != ""
    ensures var q := ByKey(Strip(key), Some(Lower(Strip(key))));
            (k == First(m.members, q) && k < |m.members|) <==> IsFirstFor(m, key, k)
  {
    hide Strip, Lower;
    var q := ByKey(Strip(key), Some(Lower(Strip(key))));
    assert forall i | 0 <= i < |m.members| ::
        Matches(m.members[i], q) <==> m.members[i].userId == Some(Strip(key)) || m.members[i].email == Some(Lower(Strip(key)));
  }

  /** A removal succeeds exactly if the stripped key is not empty and is neither the owner's id
      nor their email, and some entry has it as its id or email; the first such entry goes and
      everything else stays. */
  lemma RemoveMeans(m: Meta, key: string, now: string)
    ensures Remove(m, key, now).Success? <==>
              && Strip(key) != "" && OwnerId(m) != Some(Strip(key)) && OwnerEmail(m) != Some(Lower(Strip(key)))
              && exists i :: 0 <= i < |m.members|
                             && (m.members[i].userId == Some(Strip(key)) || m.members[i].email == Some(Lower(Strip(key))))
    ensures forall k: nat | IsFirstFor(m, key, k) && Remove(m, key, now).Success? ::
              Remove(m, key, now).value == m.(members := m.members[..k] + m.members[k + 1..], updatedAt := now)
    ensures Remove(m, key, now).Success? ==> exists k: nat :: IsFirstFor(m, key, k)
    ensures Remove(m, key, now).Failure? ==>
              Remove(m, key, now).error
              == if Strip(key) == "" || OwnerId(m) == Some(Strip(key)) || OwnerEmail(m) == Some(Lower(Strip(key))) then 400 else 404
  {
    hide Strip, Lower, Clean, NormalizeEmail, IsFirstFor;
    KeyMeans(key);
    if Strip(key) != "" {
      var q := ByKey(Strip(key), Some(Lower(Strip(key))));
      var k := First(m.members, q);
      FirstFor(m, key, k);
      forall j: nat | IsFirstFor(m, key, j) ensures j == k {
        FirstFor(m, key, j);
      }
      assert forall i | 0 <= i < |m.members| ::
          Matches(m.members[i], q) <==> m.members[i].userId == Some(Strip(key)) || m.members[i].email == Some(Lower(Strip(key)));
    }
  }

  /** Once the entry with an email is removed, nobody can claim an invitation to that email. */
  lemma RemovedIsUninvited(m: Meta, key: string, now: string, k: nat, email: string, userId: Option<string>, address: Option<string>, later: string)
    requires Inv(m) && Remove(m, key, now).Success? && IsFirstFor(m, key, k) && m.members[k].email == Some(email)
    requires NormalizeEmail(address) == Some(email)
    ensures var n := Remove(m, key, now).value;
            && (forall i | 0 <= i < |n.members| :: n.members[i].email != Some(email))
            && (Clean(userId).Some? ==> (Access(n, userId, address, later).Success? <==> HasAccess(n, Clean(userId).value)))
  {
    hide Clean, NormalizeEmail, IsFirstFor, Access, Remove;
    RemoveMeans(m, key, now);
    KIsIndex(m, key, k);
    var n := Remove(m, key, now).value;
    forall i | 0 <= i < |n.members| ensures n.members[i].email != Some(email) {
      var j := if i < k then i else i + 1;
      assert n.members[i] == m.members[j];
      assert Differ(Entry(m.members[if j < k then j else k]), Entry(m.members[if j < k then k else j]));
    }
    AccessMeans(n, userId, address, later);
  }

  /** An invitation succeeds exactly if the email is not blank and neither the owner nor an entry
      has it; a pending entry with its lower-case form is appended. */
  lemma InviteMeans(m: Meta, inviter: string, email: string, now: string)
    ensures var address := Lower(Strip(email));
            && (Invite(m, inviter, email, now).Success? <==>
                  && Strip(email) != "" && OwnerEmail(m) != Some(address)
                  && forall i | 0 <= i < |m.members| :: m.members[i].email != Some(address))
            && (Invite(m, inviter, email, now).Success? ==>
                  var n := Invite(m, inviter, email, now).value;
                  && |n.members| == |m.members| + 1 && n == m.(members := n.members, updatedAt := now)
                  && m.members <= n.members
                  && n.members[|m.members|].userId.None? && n.members[|m.members|].email == Some(address)
                  && n.members[|m.members|].invitedAt == Some(now) && n.members[|m.members|].joinedAt.None?
                  && IsInvited(n, address))
            && (Invite(m, inviter, email, now).Failure? ==>
                  Invite(m, inviter, email, now).error == if Strip(email) == "" then 400 else 409)
  {
    hide Strip, Lower;
    if Invite(m, inviter, email, now).Success? {
      var n := Invite(m, inviter, email, now).value;
      assert n.members[|m.members|].userId.None? && n.members[|m.members|].email == Some(Lower(Strip(email)));
    }
  }

  /** A hand-over succeeds exactly if the workspace has an owner, and the stripped id is not
      theirs but that of an entry; that user becomes the owner. */
  lemma TransferMeans(m: Meta, newOwner: string, now: string)
    requires Inv(m)
    ensures Transfer(m, newOwner, now).Success? <==>
              && OwnerId(m).Some? && OwnerId(m) != Some(Strip(newOwner)) && IsMember(m, Strip(newOwner))
    ensures Transfer(m, newOwner, now).Success? ==>
              && OwnerId(Transfer(m, newOwner, now).value) == Some(Strip(newOwner))
              && OwnerId(m).Some? && IsMember(Transfer(m, newOwner, now).value, OwnerId(m).value)
    ensures Transfer(m, newOwner, now).Failure? ==>
              Transfer(m, newOwner, now).error
              == if Strip(newOwner) != "" && OwnerId(m) == Some(Strip(newOwner)) then 409 else 400
  {
    hide Strip, Lower, Clean, NormalizeEmail, Inv, IsMember;
    KeyMeans(newOwner);
    HasMeans(m, Strip(newOwner), "");
    if Strip(newOwner) == "" {
      NoBlankMember(m);
    }
    if Transfer(m, newOwner, now).Success? {
      TransferKeeps(m, newOwner, now);
      HasMeans(Transfer(m, newOwner, now).value, OwnerId(m).value, "");
      FormerIsLast(m, newOwner, now);
    }
  }

  lemma NoBlankMember(m: Meta)
    requires Inv(m)
    ensures !IsMember(m, "")
  {
    hide Strip, NormalizeEmail;
    forall i | 0 <= i < |m.members| ensures m.members[i].userId != Some("") {
      assert IsNormal(m.members[i]);
      CleanMeans(m.members[i].userId);
    }
  }

  lemma KIsIndex(m: Meta, key: string, k: nat)
    requires IsFirstFor(m, key, k)
    ensures k < |m.members|
  {
  }

  /** The action removes the entry of this user. */
  predicate DropsUser(m: Meta, a: Action, user: string) {
    a.Drop? && Attempt(m, a).Success?
    && exists k | 0 <= k < |m.members| :: IsFirstFor(m, a.key, k) && m.members[k].userId == Some(user)
  }

  /** The action lets this user claim an invitation to their email. */
  predicate ClaimsFor(m: Meta, a: Action, user: string) {
    && a.Enter? && Clean(a.userId) == Some(user) && OwnerId(m).Some?
    && NormalizeEmail(a.email).Some? && IsInvited(m, NormalizeEmail(a.email).value)
  }

  lemma HasUpdate(members: seq<Member>, k: nat, entry: Member, user: string)
    requires k < |members| && members[k].userId.None?
    ensures Has(members[k := entry], ByUser(user)) <==> Has(members, ByUser(user)) || entry.userId == Some(user)
  {
    var after := members[k := entry];
    if i :| 0 <= i < |members| && Matches(members[i], ByUser(user)) {
      assert Matches(after[i], ByUser(user));
    }
    if entry.userId == Some(user) {
      assert Matches(after[k], ByUser(user));
    }
    if i :| 0 <= i < |after| && Matches(after[i], ByUser(user)) {
      assert i == k || Matches(members[i], ByUser(user));
    }
  }

  lemma HasAppend(members: seq<Member>, entry: Member, user: string)
    ensures Has(members + [entry], ByUser(user)) <==> Has(members, ByUser(user)) || entry.userId == Some(user)
  {
    var after := members + [entry];
    if i :| 0 <= i < |members| && Matches(members[i], ByUser(user)) {
      assert Matches(after[i], ByUser(user));
    }
    if entry.userId == Some(user) {
      assert Matches(after[|members|], ByUser(user));
    }
  }

  lemma HasWithout(m: Meta, k: nat, user: string)
    requires Inv(m) && k < |m.members|
    ensures Has(Without(m.members, k), ByUser(user)) <==> Has(m.members, ByUser(user)) && m.members[k].userId != Some(user)
  {
    hide Clean, NormalizeEmail;
    var after := Without(m.members, k);
    if i :| 0 <= i < |m.members| && Matches(m.members[i], ByUser(user)) {
      if i != k {
        assert Matches(after[if i < k then i else i - 1], ByUser(user));
        assert Differ(Entry(m.members[if i < k then i else k]), Entry(m.members[if i < k then k else i]));
      }
    }
    if i :| 0 <= i < |after| && Matches(after[i], ByUser(user)) {
      assert Matches(m.members[if i < k then i else i + 1], ByUser(user));
      var j := if i < k then i else i + 1;
      assert Differ(Entry(m.members[if j < k then j else k]), Entry(m.members[if j < k then k else j]));
    }
  }

  lemma EnterConserves(m: Meta, a: Action, user: string)
    requires Inv(m) && a.Enter?
    ensures HasAccess(Next(m, a), user) <==> HasAccess(m, user) || ClaimsFor(m, a, user)
  {
    hide Clean, NormalizeEmail, Inv;
    if Next(m, a) != m {
      var k := First(m.members, ByInvitation(NormalizeEmail(a.email).value));
      HasUpdate(m.members, k, Next(m, a).members[k], user);
    } else if ClaimsFor(m, a, user) && !HasAccess(m, user) {
      ClaimChanges(m, a, user);
    }
  }

  /** A user without access who may claim an invitation gains access. */
  lemma ClaimChanges(m: Meta, a: Action, user: string)
    requires ClaimsFor(m, a, user) && !HasAccess(m, user)
    ensures Next(m, a) != m
  {
    hide Clean, NormalizeEmail;
    var k := First(m.members, ByInvitation(NormalizeEmail(a.email).value));
    assert k < |m.members| by {
      var i :| 0 <= i < |m.members| && Matches(m.members[i], ByInvitation(NormalizeEmail(a.email).value));
    }
    assert Next(m, a).members[k].userId == Some(user);
  }

  lemma HandOverConserves(m: Meta, a: Action, user: string)
    requires Inv(m) && a.HandOver?
    ensures HasAccess(Next(m, a), user) <==> HasAccess(m, user)
  {
    hide Clean, NormalizeEmail, Inv;
    if Attempt(m, a).Success? {
      var n, target := Next(m, a), Clean(Some(a.newOwner));
      var k := First(m.members, ByUser(target.value));
      TransferKeeps(m, a.newOwner, a.now);
      HasWithout(m, k, user);
      HasAppend(Without(m.members, k), n.members[|m.members| - 1], user);
      if user == target.value { assert Matches(m.members[k], ByUser(user)); }
    }
  }

  lemma DropConserves(m: Meta, a: Action, user: string)
    requires Inv(m) && a.Drop?
    ensures HasAccess(Next(m, a), user) <==> HasAccess(m, user) && !DropsUser(m, a, user)
  {
    hide Clean, NormalizeEmail;
    if Attempt(m, a).Success? {
      var k := First(m.members, ByKey(Clean(Some(a.key)).value, NormalizeEmail(Clean(Some(a.key)))));
      KeyMeans(a.key);
      FirstFor(m, a.key, k);
      assert IsFirstFor(m, a.key, k);
      HasWithout(m, k, user);
      assert Differ(Owner(m), Entry(m.members[k]));
    }
  }

  lemma AddConserves(m: Meta, a: Action, user: string)
    requires a.Add?
    ensures HasAccess(Next(m, a), user) <==> HasAccess(m, user)
  {
    hide Clean, NormalizeEmail;
    if Attempt(m, a).Success? {
      HasAppend(m.members, Next(m, a).members[|m.members|], user);
    }
  }

  /** A user has access after a step exactly when the step does not remove their own entry and
      they had access before or the step claims an invitation to their email for them. */
  lemma AccessConserved(m: Meta, a: Action, user: string)
    requires Inv(m)
    ensures HasAccess(Next(m, a), user) <==> (HasAccess(m, user) && !DropsUser(m, a, user)) || ClaimsFor(m, a, user)
  {
    hide Inv, Next, HasAccess, Attempt, Clean, NormalizeEmail;
    match a
    case Enter(_, _, _) => EnterConserves(m, a, user);
    case Add(_, _, _) => AddConserves(m, a, user);
    case Drop(_, _) => DropConserves(m, a, user);
    case HandOver(_, _) => HandOverConserves(m, a, user);
  }

  /** Over a run access is lost only where the user's own entry is removed, and gained only
      where an invitation to their email is claimed. */
  lemma {:induction false} AccessOverRuns(m: Meta, actions: seq<Action>, user: string)
    requires Inv(m)
    ensures HasAccess(m, user) && !HasAccess(Run(m, actions), user) ==>
              exists i :: 0 <= i < |actions| && DropsUser(Run(m, actions[..i]), actions[i], user)
    ensures !HasAccess(m, user) && HasAccess(Run(m, actions), user) ==>
              exists i :: 0 <= i < |actions| && ClaimsFor(Run(m, actions[..i]), actions[i], user)
    decreases |actions|
  {
    hide Inv, HasAccess, DropsUser, ClaimsFor, Next;
    if actions != [] {
      var a, rest, n := actions[0], actions[1..], Next(m, actions[0]);
      assert Run(m, actions[..0]) == m;
      AccessConserved(m, a, user);
      StepKeeps(m, a);
      AccessOverRuns(n, rest, user);
      forall i | 0 <= i < |rest| ensures Run(m, actions[..i + 1]) == Run(n, rest[..i]) && actions[i + 1] == rest[i] {
        assert actions[..i + 1][1..] == rest[..i];
      }
    }
  }

  // ---------- handing over ----------

  lemma {:induction false} EntriesSplit(a: seq<Member>, b: seq<Member>)
    ensures Entries(a + b) == Entries(a) + Entries(b)
  {
    if a == [] {
      assert a + b == b;
    } else {
      assert (a + b)[1..] == a[1..] + b;
      EntriesSplit(a[1..], b);
    }
  }

  lemma {:induction false} EntriesWithout(members: seq<Member>, k: nat)
    requires k < |members|
    ensures multiset(Entries(members)) == multiset(Entries(Without(members, k))) + multiset{Entry(members[k])}
  {
    var front, last := members[..k], members[k + 1..];
    var rest := [members[k]] + last;
    assert members == front + rest && rest[1..] == last;
    EntriesSplit(front, rest);
    EntriesSplit(front, last);
    assert Entries(rest) == [Entry(members[k])] + Entries(last);
  }

  /** Everybody who belongs to the workspace, with multiplicity. */
  function Everyone(m: Meta): multiset<Principal> {
    multiset{Owner(m)} + multiset(Entries(m.members))
  }

  /** A hand-over exchanges owner and member and loses nobody. */
  lemma TransferConserves(m: Meta, newOwner: string, now: string)
    requires Inv(m) && Transfer(m, newOwner, now).Success?
    ensures Everyone(Transfer(m, newOwner, now).value) == Everyone(m)
  {
    hide Clean, NormalizeEmail, Inv;
    var n, target := Transfer(m, newOwner, now).value, Clean(Some(newOwner));
    var k := First(m.members, ByUser(target.value));
    TransferKeeps(m, newOwner, now);
    EntriesWithout(m.members, k);
    var former := n.members[|m.members| - 1];
    EntriesSplit(Without(m.members, k), [former]);
    assert [former][1..] == [];
    assert Entries([former]) == [Owner(m)];
    assert Owner(n) == Entry(m.members[k]);
  }

  /** Handing over to a member and back restores owner and owner's email, and the members as a
      collection of ids and emails; both steps succeed. */
  lemma TransferBack(m: Meta, newOwner: string, now: string, later: string)
    requires Inv(m) && Transfer(m, newOwner, now).Success?
    ensures var n := Transfer(m, newOwner, now).value;
            && Transfer(n, OwnerId(m).value, later).Success?
            && var r := Transfer(n, OwnerId(m).value, later).value;
               Owner(r) == Owner(m) && multiset(Entries(r.members)) == multiset(Entries(m.members))
  {
    hide *;
    var n := Transfer(m, newOwner, now).value;
    FormerIsLast(m, newOwner, now);
    TransferKeeps(m, newOwner, now);
    TransferConserves(m, newOwner, now);
    BackSucceeds(m, newOwner, now, later);
    TransferKeeps(n, OwnerId(m).value, later);
    TransferConserves(n, OwnerId(m).value, later);
    BackToOwner(m, newOwner, now, later);
    SameEntries(m, Transfer(n, OwnerId(m).value, later).value);
  }

  lemma SameEntries(m: Meta, r: Meta)
    requires Everyone(r) == Everyone(m) && Owner(r) == Owner(m)
    ensures multiset(Entries(r.members)) == multiset(Entries(m.members))
  {
    hide Entries, Owner;
    assert multiset(Entries(r.members)) == Everyone(r) - multiset{Owner(r)};
    assert multiset(Entries(m.members)) == Everyone(m) - multiset{Owner(m)};
  }

  /** After a hand-over the former owner is the last member and the only one with their id. */
  lemma FormerIsLast(m: Meta, newOwner: string, now: string)
    requires Inv(m) && Transfer(m, newOwner, now).Success?
    ensures var n := Transfer(m, newOwner, now).value;
            && OwnerId(m).Some? && OwnerId(n) != OwnerId(m) && |n.members| == |m.members|
            && First(n.members, ByUser(OwnerId(m).value)) == |m.members| - 1
            && Entry(n.members[|m.members| - 1]) == Owner(m)
  {
    hide Clean, NormalizeEmail;
    var n := Transfer(m, newOwner, now).value;
    TransferKeeps(m, newOwner, now);
    var q, last := ByUser(OwnerId(m).value), |m.members| - 1;
    assert Matches(n.members[last], q);
    forall i | 0 <= i < last ensures !Matches(n.members[i], q) {
      assert Differ(Entry(n.members[i]), Entry(n.members[last]));
    }
  }

  lemma BackSucceeds(m: Meta, newOwner: string, now: string, later: string)
    requires Inv(m) && Transfer(m, newOwner, now).Success?
    ensures Transfer(Transfer(m, newOwner, now).value, OwnerId(m).value, later).Success?
    ensures Clean(Some(OwnerId(m).value)) == OwnerId(m)
  {
    hide Inv, Clean, NormalizeEmail;
    FormerIsLast(m, newOwner, now);
    TransferKeeps(m, newOwner, now);
    CleanIdempotent(m.ownerId);
    assert Some(OwnerId(m).value) == OwnerId(m);
  }

  lemma BackToOwner(m: Meta, newOwner: string, now: string, later: string)
    requires Inv(m) && Transfer(m, newOwner, now).Success?
    requires Transfer(Transfer(m, newOwner, now).value, OwnerId(m).value, later).Success?
    ensures Owner(Transfer(Transfer(m, newOwner, now).value, OwnerId(m).value, later).value) == Owner(m)
  {
    hide Inv, Clean, NormalizeEmail, Transfer;
    var n := Transfer(m, newOwner, now).value;
    FormerIsLast(m, newOwner, now);
    TransferKeeps(m, newOwner, now);
    BackSucceeds(m, newOwner, now, later);
    TransferKeeps(n, OwnerId(m).value, later);
  }

  // ---------- the service ----------

  /** The first i entries without entry k. */
  function Kept(members: seq<Member>, k: nat, i: nat): seq<Member>
    requires i <= |members|
  {
    if k < i then members[..k] + members[k + 1..i] else members[..i]
  }

  lemma KeptStep(members: seq<Member>, k: nat, i: nat)
    requires i < |members|
    ensures Kept(members, k, i + 1) == if i == k then Kept(members, k, i) else Kept(members, k, i) + [members[i]]
  {
  }

  lemma KeptEnds(members: seq<Member>, k: nat)
    ensures Kept(members, k, 0) == []
    ensures k < |members| ==> Kept(members, k, |members|) == Without(members, k)
  {
  }

  class Workspace {
    var meta: Meta

    constructor (ownerId: Option<string>, ownerEmail: Option<string>, now: string)
      ensures meta == Create(ownerId, ownerEmail, now)
    {
      meta := Create(ownerId, ownerEmail, now);
    }

    /** Only a claimed invitation is written back. */
    method AssertAccess(userId: Option<string>, email: Option<string>, now: string) returns (r: Result<Meta, int>)
      modifies this
      ensures r == Access(Loaded(old(meta)), userId, email, now)
      ensures meta == if r.Success? && r.value != Loaded(old(meta)) then r.value else old(meta)
    {
      var m := Loaded(meta);
      var ownerId, actor, address := OwnerId(m), Clean(userId), NormalizeEmail(email);
      if ownerId.None? {
        return if actor.Some? then Failure(NOT_FOUND) else Success(m);
      }
      if actor.Some? && actor == ownerId {
        return Success(m);
      }
      if actor.None? {
        return Failure(NOT_FOUND);
      }
      for i := 0 to |m.members|
        invariant forall j | 0 <= j < i :: !Matches(m.members[j], ByUser(actor.value))
      {
        if m.members[i].userId == actor {
          assert Matches(m.members[i], ByUser(actor.value));
          return Success(m);
        }
      }
      if address.Some? {
        for i := 0 to |m.members|
          invariant meta == old(meta)
          invariant forall j | 0 <= j < i :: !Matches(m.members[j], ByInvitation(address.value))
        {
          var entry := m.members[i];
          if entry.userId.None? && entry.email == address {
            assert Matches(entry, ByInvitation(address.value));
            assert First(m.members, ByInvitation(address.value)) == i;
            meta := m.(members := m.members[i := entry.(userId := actor, joinedAt := Some(now))], updatedAt := now);
            assert meta.members[i] != m.members[i];
            return Success(meta);
          }
        }
      }
      return Failure(NOT_FOUND);
    }

    method InviteMember(inviter: string, email: string, now: string) returns (r: Result<Meta, int>)
      modifies this
      ensures r == Invite(Loaded(old(meta)), inviter, email, now)
      ensures meta == if r.Success? then r.value else old(meta)
    {
      var address := NormalizeEmail(Some(email));
      if address.None? {
        return Failure(BAD_REQUEST);
      }
      var m := Loaded(meta);
      if OwnerEmail(m) == address {
        return Failure(CONFLICT);
      }
      for i := 0 to |m.members|
        invariant forall j | 0 <= j < i :: m.members[j].email != address
      {
        if m.members[i].email == address {
          return Failure(CONFLICT);
        }
      }
      var entry := Member(None, address, None, Some(now), if inviter == "" then None else Some(inviter));
      meta := m.(members := m.members + [entry], updatedAt := now);
      return Success(meta);
    }

    method RemoveMember(key: string, now: string) returns (r: Result<Meta, int>)
      modifies this
      ensures r == Remove(Loaded(old(meta)), key, now)
      ensures meta == if r.Success? then r.value else old(meta)
    {
      hide Clean, NormalizeEmail, Kept, Without, Loaded;
      var target := Clean(Some(key));
      if target.None? {
        return Failure(BAD_REQUEST);
      }
      var address := NormalizeEmail(target);
      var m := Loaded(meta);
      if target == OwnerId(m) || (OwnerEmail(m).Some? && address == OwnerEmail(m)) {
        return Failure(BAD_REQUEST);
      }
      ghost var k := First(m.members, ByKey(target.value, address));
      KeptEnds(m.members, k);
      var rest: seq<Member>, removed := [], false;
      for i := 0 to |m.members|
        invariant removed <==> k < i
        invariant meta == old(meta)
        invariant rest == Kept(m.members, k, i)
      {
        KeptStep(m.members, k, i);
        var entry := m.members[i];
        if !removed && (entry.userId == target || (address.Some? && entry.email == address)) {
          assert Matches(entry, ByKey(target.value, address));
          removed := true;
        } else {
          rest := rest + [entry];
        }
      }
      if !removed {
        return Failure(NOT_FOUND);
      }
      meta := m.(members := rest, updatedAt := now);
      return Success(meta);
    }

    method TransferOwnership(newOwner: string, now: string) returns (r: Result<Meta, int>)
      modifies this
      ensures r == Transfer(Loaded(old(meta)), newOwner, now)
      ensures meta == if r.Success? then r.value else old(meta)
    {
      hide Clean, NormalizeEmail, Kept, Without, Loaded;
      var target := Clean(Some(newOwner));
      if target.None? {
        return Failure(BAD_REQUEST);
      }
      var m := Loaded(meta);
      var ownerId, ownerEmail := OwnerId(m), OwnerEmail(m);
      if ownerId.None? {
        return Failure(BAD_REQUEST);
      }
      if ownerId == target {
        return Failure(CONFLICT);
      }
      ghost var k := First(m.members, ByUser(target.value));
      KeptEnds(m.members, k);
      var rest: seq<Member>, promoted: Option<Member> := [], None;
      for i := 0 to |m.members|
        invariant promoted == if k < i then Some(m.members[k]) else None
        invariant meta == old(meta)
        invariant rest == Kept(m.members, k, i)
      {
        KeptStep(m.members, k, i);
        var entry := m.members[i];
        if promoted.None? && entry.userId == target {
          assert Matches(entry, ByUser(target.value));
          promoted := Some(entry);
        } else {
          rest := rest + [entry];
        }
      }
      if promoted.None? {
        return Failure(BAD_REQUEST);
      }
      rest := rest + [Member(ownerId, ownerEmail, Some(now), None, None)];
      meta := Meta(target, promoted.value.email, rest, now);
      return Success(meta);
    }
  }
}
