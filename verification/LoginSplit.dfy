/**
The migration that gives everybody linked to another society's login a login of their
own: residents first, then tenants, sharing what was made for a society and an old login.
*/
module LoginSplit {
  import opened Wrappers

  datatype Login = Login(society: Option<nat>, email: string, phone: Option<string>, name: string, secret: string,
                         mustChange: bool, superadmin: bool, active: bool, statusActive: bool)

  /** A resident or tenant row: the society of its flat, and the login it is linked to. */
  datatype Person = Person(society: nat, user: Option<nat>)

  /** The society a person is in and the login the person was linked to. */
  type Key = (nat, nat)

  ghost predicate Linked(users: seq<Login>, people: seq<Person>) {
    forall p :: 0 <= p < |people| && people[p].user.Some? ==> people[p].user.value < |users|
  }

  /** Linked to another society's login. */
  predicate Crosses(users: seq<Login>, person: Person) {
    && person.user.Some? && person.user.value < |users|
    && users[person.user.value].society.Some?
    && users[person.user.value].society.value != person.society
  }

  function KeyOf(person: Person): (key: Key)
    requires person.user.Some?
  {
    (person.society, person.user.value)
  }

  /** Holds its email and mobile number: only an active login does. */
  predicate Holds(u: Login) {
    u.active && u.statusActive
  }

  predicate SharesContact(u: Login, v: Login) {
    u.email == v.email || (u.phone.Some? && u.phone == v.phone)
  }

  /** A login of the society that already is the person's. */
  predicate Serves(u: Login, society: nat, old': Login) {
    u.society == Some(society) && Holds(u) && SharesContact(u, old')
  }

  /** Within a society, and among platform logins, active ones share neither email nor mobile number. */
  ghost predicate ContactsUnique(users: seq<Login>) {
    forall i, j ::
      0 <= i < j < |users| && Holds(users[i]) && Holds(users[j]) && users[i].society == users[j].society ==>
      !SharesContact(users[i], users[j])
  }

  function CopyFor(society: nat, old': Login): (u: Login) {
    Login(Some(society), old'.email, old'.phone, old'.name, old'.secret, old'.mustChange, false, true, true)
  }

  // ---------------------------------------------------------------- what has been made so far

  /** Every login made or found serves its society in place of the old one. */
  ghost predicate MadeFits(before: seq<Login>, users: seq<Login>, made: map<Key, nat>) {
    forall key :: key in made ==>
      key.1 < |before| && made[key] < |users| && Serves(users[made[key]], key.0, before[key.1])
  }

  /** Old logins stay as they are; every new one is somebody's copy, made for one key, and holds the resident role. */
  ghost predicate OnlyCopiesAdded(before: seq<Login>, users: seq<Login>, made: map<Key, nat>) {
    && before <= users
    && forall u :: |before| <= u < |users| ==> CopyMade(before, users, made, u)
  }

  ghost predicate CopyMade(before: seq<Login>, users: seq<Login>, made: map<Key, nat>, u: int) {
    exists key :: MadeFor(before, users, made, key, u)
  }

  /** The login is a copy made for the key. */
  ghost predicate MadeFor(before: seq<Login>, users: seq<Login>, made: map<Key, nat>, key: Key, u: int) {
    key in made && made[key] == u && 0 <= u < |users| && key.1 < |before| && users[u] == CopyFor(key.0, before[key.1])
  }

  ghost predicate Relinked(before: seq<Login>, was: Person, is': Person, made: map<Key, nat>) {
    is' == if Crosses(before, was)
           then (if KeyOf(was) in made then was.(user := Some(made[KeyOf(was)])) else was)
           else was
  }

  /** Everybody on a table has been dealt with, by the logins in `made`. */
  ghost predicate TableSplit(before: seq<Login>, was: seq<Person>, is': seq<Person>, made: map<Key, nat>) {
    |is'| == |was| && SplitUpTo(before, was, is', made, |was|)
  }

  ghost predicate SplitUpTo(before: seq<Login>, was: seq<Person>, is': seq<Person>, made: map<Key, nat>, n: nat)
    requires |is'| == |was| && n <= |was|
  {
    && (forall p :: 0 <= p < n ==> DealtWith(before, was[p], is'[p], made))
    && (forall p :: n <= p < |was| ==> is'[p] == was[p])
  }

  ghost predicate DealtWith(before: seq<Login>, was: Person, is': Person, made: map<Key, nat>) {
    (Crosses(before, was) ==> KeyOf(was) in made) && Relinked(before, was, is', made)
  }

  lemma SplitOneMore(before: seq<Login>, was: seq<Person>, is': seq<Person>, made: map<Key, nat>, made': map<Key, nat>,
                     n: nat, person: Person)
    requires |is'| == |was| && n < |was| && SplitUpTo(before, was, is', made, n) && Keeps(made, made')
    requires DealtWith(before, was[n], person, made')
    ensures SplitUpTo(before, was, is'[n := person], made', n + 1)
  {
  }

  lemma AddingCopyKeepsUnique(users: seq<Login>, copy: Login)
    requires ContactsUnique(users)
    requires forall u :: 0 <= u < |users| && Holds(users[u]) && users[u].society == copy.society ==>
               !SharesContact(users[u], copy)
    ensures ContactsUnique(users + [copy])
  {
  }

  /** The login that serves the key: one already there, or a new copy of the old one. */
  method LoginFor(users: seq<Login>, grants: seq<nat>, hasRole: bool, society: nat, old': Login)
    returns (users': seq<Login>, grants': seq<nat>, u: nat)
    ensures u < |users'| && Serves(users'[u], society, old')
    ensures (users' == users && grants' == grants)
            || (users' == users + [CopyFor(society, old')] && u == |users|
                && grants' == (if hasRole then grants + [u] else grants)
                && forall v :: 0 <= v < |users| ==> !Serves(users[v], society, old'))
    ensures ContactsUnique(users) ==> ContactsUnique(users')
  {
    if exists v :: 0 <= v < |users| && Serves(users[v], society, old') {
      u :| 0 <= u < |users| && Serves(users[u], society, old');
      users', grants' := users, grants;
    } else {
      u := |users|;
      users' := users + [CopyFor(society, old')];
      grants' := if hasRole then grants + [u] else grants;
      if ContactsUnique(users) {
        forall v | 0 <= v < |users| && Holds(users[v]) && users[v].society == Some(society)
          ensures !SharesContact(users[v], CopyFor(society, old'))
        {
          assert !Serves(users[v], society, old');
        }
        AddingCopyKeepsUnique(users, CopyFor(society, old'));
      }
    }
  }

  /** One person: linked to the login that serves them, which is found or made the first time. */
  method SplitPerson(ghost before: seq<Login>, users: seq<Login>, person: Person, made: map<Key, nat>,
                     grants: seq<nat>, hasRole: bool)
    returns (users': seq<Login>, person': Person, made': map<Key, nat>, grants': seq<nat>)
    requires before <= users && (person.user.Some? ==> person.user.value < |before|)
    requires MadeFits(before, users, made) && OnlyCopiesAdded(before, users, made)
    ensures users <= users' && MadeFits(before, users', made') && OnlyCopiesAdded(before, users', made')
    ensures made' == made
            || (Crosses(before, person) && KeyOf(person) !in made && KeyOf(person) in made'
                && made' == made[KeyOf(person) := made'[KeyOf(person)]])
    ensures DealtWith(before, person, person', made')
    ensures ContactsUnique(users) ==> ContactsUnique(users')
    ensures hasRole && grants == Ids(|before|, |users|) ==> grants' == Ids(|before|, |users'|)
  {
    users', person', made', grants' := users, person, made, grants;
    if Crosses(users, person) {
      assert Crosses(before, person);
      var key := KeyOf(person);
      if key !in made {
        var u;
        users', grants', u := LoginFor(users, grants, hasRole, key.0, users[key.1]);
        made' := made[key := u];
        MadeGrows(before, users, users', made, key, u);
        assert |users'| > |users| ==> Ids(|before|, |users'|) == Ids(|before|, |users|) + [u];
      }
      person' := person.(user := Some(made'[key]));
    }
  }

  /** One table's rows in turn. */
  method SplitTable(ghost before: seq<Login>, users: seq<Login>, people: seq<Person>, made: map<Key, nat>,
                    grants: seq<nat>, hasRole: bool)
    returns (users': seq<Login>, people': seq<Person>, made': map<Key, nat>, grants': seq<nat>)
    requires before <= users && Linked(before, people)
    requires MadeFits(before, users, made) && OnlyCopiesAdded(before, users, made)
    ensures users <= users' && MadeFits(before, users', made') && OnlyCopiesAdded(before, users', made')
    ensures Keeps(made, made') && TableSplit(before, people, people', made')
    ensures forall key :: key in made' && key !in made ==> CrossesOn(before, people, key)
    ensures ContactsUnique(users) ==> ContactsUnique(users')
    ensures hasRole && grants == Ids(|before|, |users|) ==> grants' == Ids(|before|, |users'|)
  {
    users', people', made', grants' := users, people, made, grants;
    for p := 0 to |people|
      invariant |people'| == |people| && users <= users'
      invariant MadeFits(before, users', made') && OnlyCopiesAdded(before, users', made')
      invariant Keeps(made, made')
      invariant SplitUpTo(before, people, people', made', p)
      invariant forall key :: key in made' && key !in made ==> CrossesOn(before, people, key)
      invariant ContactsUnique(users) ==> ContactsUnique(users')
      invariant hasRole && grants == Ids(|before|, |users|) ==> grants' == Ids(|before|, |users'|)
    {
      ghost var madeWas := made';
      var person;
      users', person, made', grants' := SplitPerson(before, users', people[p], made', grants', hasRole);
      SplitOneMore(before, people, people', madeWas, made', p, person);
      people' := people'[p := person];
      if made' != madeWas {
        assert CrossesOn(before, people, KeyOf(people[p]));
      }
    }
  }

  /** What was made for a key stays. */
  ghost predicate Keeps(made: map<Key, nat>, made': map<Key, nat>) {
    forall key :: key in made ==> key in made' && made'[key] == made[key]
  }

  function Ids(from': nat, to': nat): (ids: seq<nat>) {
    if from' <= to' then seq(to' - from', i requires 0 <= i < to' - from' => from' + i) else []
  }

  lemma MadeGrows(before: seq<Login>, was: seq<Login>, users: seq<Login>, made: map<Key, nat>, key: Key, u: nat)
    requires MadeFits(before, was, made) && OnlyCopiesAdded(before, was, made) && key !in made
    requires key.1 < |before| && u < |users| && Serves(users[u], key.0, before[key.1])
    requires users == was || (users == was + [CopyFor(key.0, before[key.1])] && u == |was|)
    ensures MadeFits(before, users, made[key := u]) && OnlyCopiesAdded(before, users, made[key := u])
  {
    var made' := made[key := u];
    forall v | |before| <= v < |users|
      ensures CopyMade(before, users, made', v)
    {
      if v < |was| {
        assert CopyMade(before, was, made, v);
        var k :| MadeFor(before, was, made, k, v);
        assert MadeFor(before, users, made', k, v);
      } else {
        assert MadeFor(before, users, made', key, v);
      }
    }
  }

  // ---------------------------------------------------------------- the whole migration

  datatype Tables = Tables(users: seq<Login>, residents: seq<Person>, tenants: seq<Person>)

  ghost predicate Sound(t: Tables) {
    Linked(t.users, t.residents) && Linked(t.users, t.tenants)
  }

  /** Everything the split does to the tables, by way of the logins it made or found. */
  ghost predicate Split(t: Tables, t': Tables, made: map<Key, nat>) {
    && MadeFits(t.users, t'.users, made) && OnlyCopiesAdded(t.users, t'.users, made)
    && TableSplit(t.users, t.residents, t'.residents, made) && TableSplit(t.users, t.tenants, t'.tenants, made)
    && (forall key :: key in made ==> CrossesOn(t.users, t.residents, key) || CrossesOn(t.users, t.tenants, key))
  }

  ghost predicate CrossesOn(users: seq<Login>, people: seq<Person>, key: Key) {
    exists p :: 0 <= p < |people| && Crosses(users, people[p]) && KeyOf(people[p]) == key
  }

  method SplitCrossSocietyLinks(t: Tables, hasRole: bool) returns (t': Tables, made: map<Key, nat>, grants: seq<nat>)
    requires Sound(t)
    ensures Split(t, t', made)
    ensures ContactsUnique(t.users) ==> ContactsUnique(t'.users)
    ensures hasRole ==> grants == Ids(|t.users|, |t'.users|)
  {
    var users, residents, tenants;
    users, residents, made, grants := SplitTable(t.users, t.users, t.residents, map[], [], hasRole);
    ghost var madeFirst := made;
    ghost var residentsFirst := residents;
    users, tenants, made, grants := SplitTable(t.users, users, t.tenants, made, grants, hasRole);
    t' := Tables(users, residents, tenants);
    forall key | key in made
      ensures CrossesOn(t.users, t.residents, key) || CrossesOn(t.users, t.tenants, key)
    {
      if key in madeFirst {
        var p :| 0 <= p < |t.residents| && Crosses(t.users, t.residents[p]) && KeyOf(t.residents[p]) == key;
      } else {
        var p :| 0 <= p < |t.tenants| && Crosses(t.users, t.tenants[p]) && KeyOf(t.tenants[p]) == key;
      }
    }
  }

  /** Active, in both ways a row can be. */
  predicate InUse(u: Login) {
    u.active && u.statusActive
  }

  /** What the uniqueness indexes ask: logins in use of one society differ in email and in mobile number. */
  lemma ContactsApart(users: seq<Login>)
    ensures ContactsUnique(users)
            <==> forall i, j :: (0 <= i < j < |users| && InUse(users[i]) && InUse(users[j])
                                 && users[i].society == users[j].society) ==>
                   && users[i].email != users[j].email
                   && (users[i].phone != users[j].phone || users[i].phone == None)
  {
  }

  /** A login serves a society in place of an old one: in use there, with the old one's email or mobile number. */
  lemma ServesWhen(u: Login, society: nat, old': Login)
    ensures Serves(u, society, old')
            <==> && u.society == Some(society) && InUse(u)
                 && (u.email == old'.email || (u.phone != None && u.phone == old'.phone))
  {
  }

  /** The person's login, if any, is of no society or of the person's own. */
  predicate AtHome(users: seq<Login>, person: Person) {
    person.user.Some? ==>
      && person.user.value < |users|
      && (users[person.user.value].society == None || users[person.user.value].society == Some(person.society))
  }

  /** Afterwards nobody is linked to another society's login. */
  lemma NobodyCrosses(t: Tables, t': Tables, made: map<Key, nat>)
    requires Sound(t) && Split(t, t', made)
    ensures Sound(t')
    ensures forall p :: 0 <= p < |t'.residents| ==> AtHome(t'.users, t'.residents[p])
    ensures forall p :: 0 <= p < |t'.tenants| ==> AtHome(t'.users, t'.tenants[p])
  {
  }

  /** Whoever crossed is linked to the one login for their society and old login; everybody else's row is as before. */
  ghost predicate AllLinkedBy(users: seq<Login>, was: seq<Person>, is': seq<Person>, made: map<Key, nat>) {
    && |is'| == |was|
    && (forall p :: 0 <= p < |was| && Crosses(users, was[p]) ==>
          KeyOf(was[p]) in made && is'[p] == was[p].(user := Some(made[KeyOf(was[p])])))
    && (forall p :: 0 <= p < |was| && !Crosses(users, was[p]) ==> is'[p] == was[p])
  }

  /** Each society and old login have one login in their place, the same for both tables, and it serves them. */
  lemma OneLoginPerSocietyAndOldLogin(t: Tables, t': Tables, made: map<Key, nat>)
    requires Sound(t) && Split(t, t', made)
    ensures AllLinkedBy(t.users, t.residents, t'.residents, made) && AllLinkedBy(t.users, t.tenants, t'.tenants, made)
    ensures forall key :: key in made ==>
              key.1 < |t.users| && made[key] < |t'.users| && Serves(t'.users[made[key]], key.0, t.users[key.1])
  {
    forall p | 0 <= p < |t.residents|
      ensures DealtWith(t.users, t.residents[p], t'.residents[p], made)
    {
    }
    forall p | 0 <= p < |t.tenants|
      ensures DealtWith(t.users, t.tenants[p], t'.tenants[p], made)
    {
    }
  }

  /** The new login stands in for the old one: same name, contacts and password, in its own society. */
  predicate StandsIn(u: Login, old': Login, society: nat) {
    && u.society == Some(society) && u.email == old'.email && u.phone == old'.phone && u.name == old'.name
    && u.secret == old'.secret && u.mustChange == old'.mustChange
    && !u.superadmin && u.active && u.statusActive
  }

  /**
  Every login added stands in for the old login of somebody whose link crossed, so that the
  password that opened the old one opens it; none is a platform admin's, and old logins stay.
  */
  lemma AddedStandIn(t: Tables, t': Tables, made: map<Key, nat>, u: nat, verify: (string, string) -> bool)
    returns (key: Key)
    requires Sound(t) && Split(t, t', made) && |t.users| <= u < |t'.users|
    ensures t.users <= t'.users && key in made && made[key] == u && key.1 < |t.users|
    ensures CrossesOn(t.users, t.residents, key) || CrossesOn(t.users, t.tenants, key)
    ensures StandsIn(t'.users[u], t.users[key.1], key.0)
    ensures forall p: string :: verify(p, t'.users[u].secret) <==> verify(p, t.users[key.1].secret)
  {
    assert CopyMade(t.users, t'.users, made, u);
    key :| MadeFor(t.users, t'.users, made, key, u);
  }

  /** A login is added only where somebody's link crosses. */
  lemma CopiesNeedKeys(before: seq<Login>, users: seq<Login>, made: map<Key, nat>)
    requires OnlyCopiesAdded(before, users, made) && |users| > |before|
    ensures made != map[]
  {
    assert CopyMade(before, users, made, |before|);
    var key :| MadeFor(before, users, made, key, |before|);
  }

  lemma NothingCrossesNothingMade(t: Tables, t': Tables, made: map<Key, nat>)
    requires Sound(t) && Split(t, t', made)
    requires forall p :: 0 <= p < |t.residents| ==> !Crosses(t.users, t.residents[p])
    requires forall p :: 0 <= p < |t.tenants| ==> !Crosses(t.users, t.tenants[p])
    ensures made == map[] && t' == t
  {
    assert forall key :: !CrossesOn(t.users, t.residents, key) && !CrossesOn(t.users, t.tenants, key);
    assert made == map[];
    if |t'.users| > |t.users| {
      CopiesNeedKeys(t.users, t'.users, made);
    }
    assert forall p :: 0 <= p < |t.residents| ==> DealtWith(t.users, t.residents[p], t'.residents[p], made);
    assert forall p :: 0 <= p < |t.tenants| ==> DealtWith(t.users, t.tenants[p], t'.tenants[p], made);
  }

  /** A second run changes nothing. */
  lemma SecondRunChangesNothing(t: Tables, t': Tables, t'': Tables, made: map<Key, nat>, made': map<Key, nat>)
    requires Sound(t) && Split(t, t', made) && Split(t', t'', made')
    ensures t'' == t' && made' == map[]
  {
    NobodyCrosses(t, t', made);
    NothingCrossesNothingMade(t', t'', made');
  }
}
