/** Single-use invite keys and the chain of invitations behind every account. */
module Invites {
  import opened Model

  /** `seeded` accounts were put in by a script, the others registered with a key. E-mail addresses are case-folded. */
  datatype Account = Account(email: string, canInvite: bool, seeded: bool)

  datatype InviteKey = InviteKey(key: string, createdBy: Option<UserId>, usedBy: Option<UserId>, usedAt: Option<Time>)

  datatype Answer = Done | EmailTaken | BadKey | MayNotInvite | Duplicate

  /******* Lookups *******/

  predicate EmailKnown(users: seq<Account>, email: string) {
    exists u :: 0 <= u < |users| && users[u].email == email
  }

  predicate Unused(k: InviteKey, key: string) {
    k.key == key && k.usedBy.None?
  }

  /******* What the tables keep *******/

  ghost predicate UniqueEmails(users: seq<Account>) {
    forall u, v :: 0 <= u < v < |users| ==> users[u].email != users[v].email
  }

  ghost predicate UniqueKeys(keys: seq<InviteKey>) {
    forall i, j :: 0 <= i < j < |keys| ==> keys[i].key != keys[j].key
  }

  /** Foreign keys point at accounts, seeds use no key, and a key is used by an account younger than its creator. */
  predicate KeyOk(k: InviteKey, users: seq<Account>) {
    && (k.createdBy.Some? ==> k.createdBy.value < |users|)
    && (k.usedBy.Some? ==> k.usedBy.value < |users| && !users[k.usedBy.value].seeded)
    && (k.usedBy.Some? <==> k.usedAt.Some?)
    && (k.usedBy.Some? && k.createdBy.Some? ==> k.createdBy.value < k.usedBy.value)
  }

  predicate UsedBy(keys: seq<InviteKey>, i: nat, u: UserId) {
    i < |keys| && keys[i].usedBy == Some(u)
  }

  /** Every registered account used exactly one key. */
  ghost predicate OneKeyEach(users: seq<Account>, keys: seq<InviteKey>) {
    && (forall u: UserId :: u < |users| && !users[u].seeded ==> exists i: nat :: UsedBy(keys, i, u))
    && (forall i: nat, j: nat, u: UserId :: UsedBy(keys, i, u) && UsedBy(keys, j, u) ==> i == j)
  }

  ghost predicate Forest(users: seq<Account>, keys: seq<InviteKey>) {
    && UniqueEmails(users) && UniqueKeys(keys)
    && (forall i :: 0 <= i < |keys| ==> KeyOk(keys[i], users))
    && OneKeyEach(users, keys)
  }

  /******* The chain *******/

  /** The key a registered account used. */
  ghost function KeyOf(users: seq<Account>, keys: seq<InviteKey>, u: UserId): (i: nat)
    requires Forest(users, keys) && u < |users| && !users[u].seeded
    ensures UsedBy(keys, i, u)
  {
    var i: nat :| UsedBy(keys, i, u);
    i
  }

  /** From an account to its key's creator and on, up to where it ends. */
  ghost function Lineage(users: seq<Account>, keys: seq<InviteKey>, u: UserId): (chain: seq<UserId>)
    requires Forest(users, keys) && u < |users|
    decreases u
  {
    if users[u].seeded then [u]
    else
      var k := keys[KeyOf(users, keys, u)];
      if k.createdBy.None? then [u]
      else
        assert KeyOk(k, users);
        [u] + Lineage(users, keys, k.createdBy.value)
  }

  /** The account was seeded or came in with a bootstrap key. */
  ghost predicate IsRoot(users: seq<Account>, keys: seq<InviteKey>, u: UserId)
    requires Forest(users, keys)
  {
    u < |users| && (users[u].seeded || keys[KeyOf(users, keys, u)].createdBy.None?)
  }

  /** `v` created the key `u` registered with. */
  ghost predicate InvitedBy(users: seq<Account>, keys: seq<InviteKey>, u: UserId, v: UserId) {
    exists i: nat :: UsedBy(keys, i, u) && keys[i].createdBy == Some(v)
  }

  /** Each account of the chain registered with a key that the next one, an older account, had created. */
  ghost predicate Descends(users: seq<Account>, keys: seq<InviteKey>, chain: seq<UserId>) {
    |chain| > 1 ==>
      chain[1] < chain[0] && InvitedBy(users, keys, chain[0], chain[1]) && Descends(users, keys, chain[1..])
  }

  /**
   Following the invitations from any account never comes back: each inviter is an older account, and the chain
   ends at a seeded account or at a bootstrap key.
   */
  lemma {:induction false} LineageEnds(users: seq<Account>, keys: seq<InviteKey>, u: UserId)
    requires Forest(users, keys) && u < |users|
    ensures var chain := Lineage(users, keys, u);
      chain != [] && chain[0] == u && IsRoot(users, keys, chain[|chain| - 1]) && Descends(users, keys, chain)
    decreases u
  {
    if !IsRoot(users, keys, u) {
      var k := KeyOf(users, keys, u);
      assert KeyOk(keys[k], users);
      var v := keys[k].createdBy.value;
      LineageEnds(users, keys, v);
      assert UsedBy(keys, k, u) && keys[k].createdBy == Some(v);
      assert Lineage(users, keys, u)[1..] == Lineage(users, keys, v);
    }
  }

  /******* The handlers *******/

  /** Adding an account that uses no key yet breaks nothing but its missing key. */
  lemma SeedKeepsForest(users: seq<Account>, keys: seq<InviteKey>, seed: Account)
    requires Forest(users, keys) && seed.seeded && !EmailKnown(users, seed.email)
    ensures Forest(users + [seed], keys)
  {
  }

  lemma NewKeyKeepsForest(users: seq<Account>, keys: seq<InviteKey>, minted: InviteKey)
    requires Forest(users, keys) && minted.usedBy.None? && minted.usedAt.None?
    requires minted.createdBy.Some? ==> minted.createdBy.value < |users|
    requires forall i :: 0 <= i < |keys| ==> keys[i].key != minted.key
    ensures Forest(users, keys + [minted])
  {
    forall i: nat, u: UserId ensures UsedBy(keys + [minted], i, u) <==> UsedBy(keys, i, u) {
    }
  }

  lemma RegistrationKeepsForest(users: seq<Account>, keys: seq<InviteKey>, account: Account, i: nat, now: Time)
    requires Forest(users, keys) && !account.seeded && !EmailKnown(users, account.email)
    requires i < |keys| && keys[i].usedBy.None?
    ensures Forest(users + [account], keys[i := keys[i].(usedBy := Some(|users|), usedAt := Some(now))])
  {
    var keys' := keys[i := keys[i].(usedBy := Some(|users|), usedAt := Some(now))];
    forall j | 0 <= j < |keys| ensures KeyOk(keys'[j], users + [account]) {
      assert KeyOk(keys[j], users);
    }
    forall j: nat, u: UserId ensures UsedBy(keys', j, u) <==> if j == i then u == |users| else UsedBy(keys, j, u) {
    }
    forall j: nat | j < |keys| ensures !UsedBy(keys, j, |users|) {
      assert KeyOk(keys[j], users);
    }
    forall u: UserId | u < |users| && !users[u].seeded ensures exists j: nat :: UsedBy(keys', j, u) {
      var j: nat :| UsedBy(keys, j, u);
      assert UsedBy(keys', j, u);
    }
    assert UsedBy(keys', i, |users|);
  }

  class Office {
    var users: seq<Account>
    var keys: seq<InviteKey>

    ghost predicate Valid()
      reads this
    {
      Forest(users, keys)
    }

    /** The migration's bootstrap key. */
    constructor (bootstrap: string)
      ensures Valid() && users == [] && keys == [InviteKey(bootstrap, None, None, None)]
    {
      users := [];
      keys := [InviteKey(bootstrap, None, None, None)];
    }

    method SeedAccount(email: string, canInvite: bool) returns (answer: Answer)
      requires Valid()
      modifies this
      ensures Valid() && keys == old(keys)
      ensures answer == if EmailKnown(old(users), email) then Duplicate else Done
      ensures users == if answer.Done? then old(users) + [Account(email, canInvite, true)] else old(users)
    {
      if EmailKnown(users, email) {
        return Duplicate;
      }
      SeedKeepsForest(users, keys, Account(email, canInvite, true));
      users := users + [Account(email, canInvite, true)];
      answer := Done;
    }

    /** Registers with an unused key and uses it up. */
    method Register(email: string, key: string, now: Time) returns (answer: Answer)
      requires Valid()
      modifies this
      ensures Valid()
      ensures answer == if EmailKnown(old(users), email) then EmailTaken
        else if exists i :: 0 <= i < |old(keys)| && Unused(old(keys)[i], key) then Done else BadKey
      ensures !answer.Done? ==> users == old(users) && keys == old(keys)
      ensures answer.Done? ==> users == old(users) + [Account(email, false, false)]
      ensures answer.Done? ==> |keys| == |old(keys)| && forall i :: 0 <= i < |keys| ==>
        keys[i] == if old(keys)[i].key == key then old(keys)[i].(usedBy := Some(|old(users)|), usedAt := Some(now)) else old(keys)[i]
    {
      if EmailKnown(users, email) {
        return EmailTaken;
      }
      if !exists i :: 0 <= i < |keys| && Unused(keys[i], key) {
        return BadKey;
      }
      var i :| 0 <= i < |keys| && Unused(keys[i], key);
      RegistrationKeepsForest(users, keys, Account(email, false, false), i, now);
      users := users + [Account(email, false, false)];
      var invite := keys[i];
      invite := invite.(usedBy := Some(|users| - 1));
      invite := invite.(usedAt := Some(now));
      keys := keys[i := invite];
      answer := Done;
    }

    /** Makes a key for a user who may invite. */
    method CreateInviteKey(user: UserId, minted: string) returns (answer: Answer)
      requires Valid() && user < |users|
      modifies this
      ensures Valid() && users == old(users)
      ensures answer == if !old(users)[user].canInvite then MayNotInvite
        else if exists i :: 0 <= i < |old(keys)| && old(keys)[i].key == minted then Duplicate else Done
      ensures keys == if answer.Done? then old(keys) + [InviteKey(minted, Some(user), None, None)] else old(keys)
    {
      if !users[user].canInvite {
        return MayNotInvite;
      }
      if exists i :: 0 <= i < |keys| && keys[i].key == minted {
        return Duplicate;
      }
      NewKeyKeepsForest(users, keys, InviteKey(minted, Some(user), None, None));
      keys := keys + [InviteKey(minted, Some(user), None, None)];
      answer := Done;
    }

    /** An admin lets a user invite, or no longer. */
    method SetCanInvite(user: UserId, canInvite: bool)
      requires Valid() && user < |users|
      modifies this
      ensures Valid() && keys == old(keys)
      ensures users == old(users)[user := old(users)[user].(canInvite := canInvite)]
    {
      var users' := users[user := users[user].(canInvite := canInvite)];
      forall i | 0 <= i < |keys| ensures KeyOk(keys[i], users') {
        assert KeyOk(keys[i], users);
      }
      users := users';
    }
  }
}
