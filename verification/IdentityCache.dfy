/** The identity cache: people, platform ids, teams and team members, all merged by email (lookup/base.py,
    lookup/models.py). Every operation is one or more transactions; a run is any list of transactions of any workers. */
module IdentityCache {
  import opened Prelude
  import opened Text

  type Email = Str
  type TeamName = Str
  type PlatformId = (Str, Str)

  const ONE_WEEK := 604800.0

  datatype Person = Person(name: Option<Str>, source: Str, updated: real)
  datatype TeamRow = TeamRow(lastCached: real, ttl: int)

  datatype Cache = Cache(
    people: map<Email, Person>,
    ids: map<PlatformId, Email>,
    teams: map<TeamName, TeamRow>,
    members: set<(TeamName, Email)>,
    teamIds: map<PlatformId, TeamName>)

  const EMPTY := Cache(map[], map[], map[], {}, map[])

  /** A partial person; `ids` are the items of its platform-id dictionary. */
  datatype Fragment = Fragment(email: Email, name: Option<Str>, source: Str, ids: seq<PlatformId>)

  predicate Blank(name: Option<Str>) {
    name.None? || Strip(name.value) == []
  }

  predicate Empty(name: Option<Str>) {
    name.None? || name.value == []
  }

  /* ---------- one merge ---------- */

  predicate WritesName(existing: Option<Person>, f: Fragment, now: real) {
    existing.None? || ((Blank(existing.value.name) || now - existing.value.updated > ONE_WEEK) && !Empty(f.name))
  }

  function Merged(existing: Option<Person>, f: Fragment, now: real): Person {
    if WritesName(existing, f, now) then Person(f.name, f.source, now) else existing.value
  }

  function WithIds(ids: map<PlatformId, Email>, email: Email, items: seq<PlatformId>): map<PlatformId, Email> {
    if items == [] then ids
    else
      var so, last := WithIds(ids, email, items[..|items| - 1]), items[|items| - 1];
      if last in so then so else so[last := email]
  }

  /** New ids go to this email; ids that had an email keep it. */
  lemma {:induction false} WithIdsMeaning(ids: map<PlatformId, Email>, email: Email, items: seq<PlatformId>)
    ensures var after := WithIds(ids, email, items);
            && (forall k :: k in after <==> k in ids || k in items)
            && (forall k | k in after :: after[k] == if k in ids then ids[k] else email)
  {
    if items != [] {
      WithIdsMeaning(ids, email, items[..|items| - 1]);
    }
  }

  function PersonIn(c: Cache, email: Email): Option<Person> {
    if email in c.people then Some(c.people[email]) else None
  }

  function AfterMerge(c: Cache, f: Fragment, now: real): Cache {
    c.(people := c.people[f.email := Merged(PersonIn(c, f.email), f, now)], ids := WithIds(c.ids, f.email, f.ids))
  }

  /* ---------- one team snapshot ---------- */

  datatype Snapshot = Snapshot(team: TeamName, lastCached: real, ttl: int, emails: seq<Email>, id: Option<PlatformId>)

  datatype CacheError = DuplicateMember | UnknownMember

  predicate UsableId(id: Option<PlatformId>) {
    id.Some? && id.value.0 != [] && id.value.1 != []
  }

  predicate Distinct(emails: seq<Email>) {
    forall i, j | 0 <= i < j < |emails| :: emails[i] != emails[j]
  }

  function RowsFor(team: TeamName, emails: seq<Email>): set<(TeamName, Email)> {
    set e | e in emails :: (team, e)
  }

  function MembersOf(members: set<(TeamName, Email)>, team: TeamName): set<Email> {
    set m | m in members && m.0 == team :: m.1
  }

  function WithoutTeam(members: set<(TeamName, Email)>, team: TeamName): set<(TeamName, Email)> {
    set m | m in members && m.0 != team
  }

  /** `enforced` says whether the database checks foreign keys. */
  function AfterCache(c: Cache, s: Snapshot, enforced: bool): Result<Cache, CacheError> {
    if !Distinct(s.emails) then Err(DuplicateMember)
    else if enforced && exists e :: e in s.emails && e !in c.people then Err(UnknownMember)
    else Ok(c.(teams := c.teams[s.team := TeamRow(s.lastCached, s.ttl)],
               members := WithoutTeam(c.members, s.team) + RowsFor(s.team, s.emails),
               teamIds := if UsableId(s.id) && s.id.value !in c.teamIds
                   then c.teamIds[s.id.value := s.team]
                   else c.teamIds))
  }

  /** A snapshot replaces exactly its own team: its members become the listed emails, all other teams keep theirs,
      and nobody leaves the people table. */
  lemma SnapshotMeaning(c: Cache, s: Snapshot, enforced: bool)
    ensures var after := AfterCache(c, s, enforced);
            && (after.Err? <==> !Distinct(s.emails) || (enforced && exists e :: e in s.emails && e !in c.people))
            && (after.Ok? ==>
                  && (forall e :: e in MembersOf(after.value.members, s.team) <==> e in s.emails)
                  && (forall t | t != s.team :: MembersOf(after.value.members, t) == MembersOf(c.members, t))
                  && after.value.teams == c.teams[s.team := TeamRow(s.lastCached, s.ttl)]
                  && after.value.people == c.people && after.value.ids == c.ids
                  && (forall id | id in c.teamIds ::
                      id in after.value.teamIds && after.value.teamIds[id] == c.teamIds[id])
                  && (forall id | id in after.value.teamIds && id !in c.teamIds ::
                        s.id == Some(id) && after.value.teamIds[id] == s.team)
                  && (s.id.Some? && s.id.value.0 != [] && s.id.value.1 != [] ==> s.id.value in after.value.teamIds))
  {
    hide Distinct;
    var after := AfterCache(c, s, enforced);
    if after.Ok? {
      forall e ensures e in MembersOf(after.value.members, s.team) <==> e in s.emails {
        assert e in s.emails ==> (s.team, e) in after.value.members;
      }
      forall t | t != s.team ensures MembersOf(after.value.members, t) == MembersOf(c.members, t) {
        forall e ensures e in MembersOf(after.value.members, t) <==> e in MembersOf(c.members, t) {
          assert (t, e) in after.value.members <==> (t, e) in c.members;
        }
      }
    }
  }

  /* ---------- the class ---------- */

  datatype Found = Found(email: Email, name: Str, ids: map<Str, Str>, source: Str)

  /** `p` is what the lookup plugin `plugin` says about `email`; among several ids on one platform, any one may be
      returned. */
  ghost predicate IsPersonOf(plugin: Str, c: Cache, email: Email, p: Found) {
    && email in c.people && p.email == email
    && p.name == (if c.people[email].name.None? then [] else c.people[email].name.value)
    && p.source == (if c.people[email].source == [] then plugin else c.people[email].source)
    && (forall k | k in p.ids :: (k, p.ids[k]) in c.ids && c.ids[(k, p.ids[k])] == email)
    && (forall pid | pid in c.ids && c.ids[pid] == email :: pid.0 in p.ids)
  }

  /** One merge transaction of `merge_team`: when it happens, and whether it raised. */
  datatype Attempt = Attempt(now: real, fails: bool)

  function AfterMerges(c: Cache, members: seq<Fragment>, attempts: seq<Attempt>): Cache
    requires |attempts| == |members|
  {
    if members == [] then c
    else
      var n := |members| - 1;
      var so := AfterMerges(c, members[..n], attempts[..n]);
      if attempts[n].fails then so else AfterMerge(so, members[n], attempts[n].now)
  }

  function EmailsOf(members: seq<Fragment>): seq<Email> {
    seq(|members|, i requires 0 <= i < |members| => members[i].email)
  }

  /** The members of a team whose person is in the cache. */
  function KnownMembers(c: Cache, team: TeamName): set<Email> {
    set e | e in MembersOf(c.members, team) && e in c.people
  }

  class Store {
    const plugin: Str
    const defaultTtl: int
    var people: map<Email, Person>
    var ids: map<PlatformId, Email>
    var teams: map<TeamName, TeamRow>
    var members: set<(TeamName, Email)>
    var teamIds: map<PlatformId, TeamName>

    function Current(): Cache
      reads this
    {
      Cache(people, ids, teams, members, teamIds)
    }

    constructor (plugin: Str, defaultTtl: int)
      ensures Current() == EMPTY && this.plugin == plugin && this.defaultTtl == defaultTtl
    {
      this.plugin, this.defaultTtl := plugin, defaultTtl;
      people, ids, teams, members, teamIds := map[], map[], map[], {}, map[];
    }

    method GetPersonByEmail(email: Email) returns (person: Option<Found>)
      ensures person.None? <==> email !in people
      ensures person.Some? ==> IsPersonOf(plugin, Current(), email, person.value)
    {
      if email !in people {
        return None;
      }
      var rows := set pid | pid in ids && ids[pid] == email;
      var found: map<Str, Str> := map[];
      while rows != {}
        invariant forall pid | pid in rows :: pid in ids && ids[pid] == email
        invariant forall k | k in found :: (k, found[k]) in ids && ids[(k, found[k])] == email
        invariant forall pid | pid in ids && ids[pid] == email :: pid in rows || pid.0 in found
        decreases |rows|
      {
        var pid :| pid in rows;
        rows := rows - {pid};
        found := found[pid.0 := pid.1];
      }
      var p := people[email];
      var name := if p.name.None? then [] else p.name.value;
      return Some(Found(email, name, found, if p.source == [] then plugin else p.source));
    }

    method GetPersonById(platform: Str, id: Str) returns (person: Option<Found>)
      ensures person.Some? <==> (platform, id) in ids && ids[(platform, id)] != [] && ids[(platform, id)] in people
      ensures person.Some? ==> IsPersonOf(plugin, Current(), ids[(platform, id)], person.value)
    {
      if (platform, id) !in ids || ids[(platform, id)] == [] {
        return None;
      }
      person := GetPersonByEmail(ids[(platform, id)]);
    }

    method MergePerson(f: Fragment, now: real) returns (merged: Found)
      modifies this
      ensures Current() == AfterMerge(old(Current()), f, now)
      ensures IsPersonOf(plugin, Current(), f.email, merged)
      ensures merged.email == f.email
      ensures f.email !in old(people) ==>
                && merged.name == (if f.name.Some? then f.name.value else [])
                && merged.source == (if f.source == [] then plugin else f.source)
      ensures forall pid | pid in f.ids && pid !in old(ids) :: pid.0 in merged.ids
    {
      if f.email in people {
        var existing := people[f.email];
        var shouldUpdateName := Blank(existing.name) || now - existing.updated > ONE_WEEK;
        if shouldUpdateName && !Empty(f.name) {
          people := people[f.email := Person(f.name, f.source, now)];
        }
      } else {
        people := people[f.email := Person(f.name, f.source, now)];
      }
      assert people == AfterMerge(old(Current()), f, now).people;
      for i := 0 to |f.ids|
        invariant ids == WithIds(old(ids), f.email, f.ids[..i])
        invariant people == AfterMerge(old(Current()), f, now).people
        invariant teams == old(teams) && members == old(members) && teamIds == old(teamIds)
      {
        assert f.ids[..i + 1][..i] == f.ids[..i];
        if f.ids[i] !in ids {
          ids := ids[f.ids[i] := f.email];
        }
      }
      assert f.ids[..|f.ids|] == f.ids;
      WithIdsMeaning(old(ids), f.email, f.ids);
      var person := GetPersonByEmail(f.email);
      return person.value;
    }

    /** The snapshot as stored: a time to live of zero stands for the default. */
    function Stored(s: Snapshot): Snapshot {
      if s.ttl == 0 then s.(ttl := defaultTtl) else s
    }

    /** A refused snapshot is rolled back whole. */
    method CacheTeam(s: Snapshot, enforced: bool) returns (error: Option<CacheError>)
      modifies this
      ensures match AfterCache(old(Current()), Stored(s), enforced)
              case Ok(after) => error == None && Current() == after
              case Err(e) => error == Some(e) && Current() == old(Current())
      ensures error.None? ==>
                s.team in teams && teams[s.team] == TeamRow(s.lastCached, if s.ttl == 0 then defaultTtl else s.ttl)
    {
      var rows := WithoutTeam(members, s.team);
      for i := 0 to |s.emails|
        invariant rows == WithoutTeam(members, s.team) + RowsFor(s.team, s.emails[..i])
        invariant Distinct(s.emails[..i])
      {
        if (s.team, s.emails[i]) in rows {
          assert s.emails[i] in s.emails[..i];
          return Some(DuplicateMember);
        }
        rows := rows + {(s.team, s.emails[i])};
        assert s.emails[..i + 1] == s.emails[..i] + [s.emails[i]];
      }
      assert s.emails[..|s.emails|] == s.emails;
      if enforced && exists e :: e in s.emails && e !in people {
        return Some(UnknownMember);
      }
      teams := teams[s.team := TeamRow(s.lastCached, if s.ttl == 0 then defaultTtl else s.ttl)];
      members := rows;
      if UsableId(s.id) && s.id.value !in teamIds {
        teamIds := teamIds[s.id.value := s.team];
      }
      return None;
    }

    /** `merge_team`: merge every member, each in its own transaction, going on when one fails; then store the
        snapshot. */
    method MergeTeam(team: TeamName, ttl: int, id: Option<PlatformId>, fragments: seq<Fragment>, attempts: seq<Attempt>,
                     cachedAt: real, enforced: bool)
      returns (error: Option<CacheError>)
      requires |attempts| == |fragments|
      modifies this
      ensures var merged := AfterMerges(old(Current()), fragments, attempts);
              match AfterCache(merged, Stored(Snapshot(team, cachedAt, ttl, EmailsOf(fragments), id)), enforced)
              case Ok(after) => error == None && Current() == after
              case Err(e) => error == Some(e) && Current() == merged
    {
      var emails: seq<Email> := [];
      for i := 0 to |fragments|
        invariant Current() == AfterMerges(old(Current()), fragments[..i], attempts[..i])
        invariant emails == EmailsOf(fragments[..i])
      {
        assert fragments[..i + 1][..i] == fragments[..i] && attempts[..i + 1][..i] == attempts[..i];
        if attempts[i].fails {
          emails := emails + [fragments[i].email];
        } else {
          var merged := MergePerson(fragments[i], attempts[i].now);
          emails := emails + [merged.email];
        }
      }
      assert fragments[..|fragments|] == fragments && attempts[..|attempts|] == attempts;
      error := CacheTeam(Snapshot(team, cachedAt, ttl, emails, id), enforced);
    }

    /** `get_team_by_name` under the exact name: the members that the people table knows, each once. */
    method GetTeamByName(team: TeamName) returns (found: Option<seq<Found>>)
      ensures found.None? <==> team !in teams
      ensures found.Some? ==>
                && (forall e :: e in KnownMembers(Current(), team) <==> exists i ::
                    0 <= i < |found.value| && found.value[i].email == e)
                && (forall i | 0 <= i < |found.value| ::
                    IsPersonOf(plugin, Current(), found.value[i].email, found.value[i]))
                && (forall i, j | 0 <= i < j < |found.value| :: found.value[i].email != found.value[j].email)
    {
      if team !in teams {
        return None;
      }
      var rows := MembersOf(members, team);
      var list: seq<Found> := [];
      while rows != {}
        invariant rows <= MembersOf(members, team)
        invariant forall i | 0 <= i < |list| :: list[i].email !in rows && list[i].email in KnownMembers(Current(), team)
        invariant forall i | 0 <= i < |list| :: IsPersonOf(plugin, Current(), list[i].email, list[i])
        invariant forall i, j | 0 <= i < j < |list| :: list[i].email != list[j].email
        invariant forall e | e in KnownMembers(Current(), team) && e !in rows :: exists i ::
            0 <= i < |list| && list[i].email == e
        decreases |rows|
      {
        var e :| e in rows;
        var p := GetPersonByEmail(e);
        if p.Some? {
          ghost var before := list;
          list := list + [p.value];
          assert list[|before|].email == e;
          assert forall i | 0 <= i < |before| :: list[i] == before[i];
        }
        rows := rows - {e};
      }
      return Some(list);
    }
  }

  /* ---------- runs ---------- */

  datatype Tx = Merge(fragment: Fragment, now: real) | Snap(snapshot: Snapshot, enforced: bool)

  function Apply(c: Cache, tx: Tx): Cache {
    match tx
    case Merge(f, now) => AfterMerge(c, f, now)
    case Snap(s, enforced) => (match AfterCache(c, s, enforced) case Ok(after) => after case Err(_) => c)
  }

  function Exec(run: seq<Tx>): Cache {
    if run == [] then EMPTY else Apply(Exec(run[..|run| - 1]), run[|run| - 1])
  }

  lemma ExecExtends(run: seq<Tx>, k: nat)
    requires k < |run|
    ensures Exec(run[..k + 1]) == Apply(Exec(run[..k]), run[k])
  {
    assert run[..k + 1][..k] == run[..k];
  }

  /** Every platform id points at a person, and every member row and team id at a team. */
  ghost predicate References(c: Cache) {
    && (forall k | k in c.ids :: c.ids[k] in c.people)
    && (forall m | m in c.members :: m.0 in c.teams)
    && (forall k | k in c.teamIds :: c.teamIds[k] in c.teams)
  }

  lemma ApplyKeepsReferences(c: Cache, tx: Tx)
    requires References(c)
    ensures References(Apply(c, tx))
  {
    hide Distinct, Merged, WithIds;
    if tx.Merge? {
      var f, after := tx.fragment, Apply(c, tx);
      WithIdsMeaning(c.ids, f.email, f.ids);
      assert after.people.Keys == c.people.Keys + {f.email};
      assert forall k | k in after.ids :: after.ids[k] == f.email || (k in c.ids && after.ids[k] == c.ids[k]);
    }
  }

  lemma {:induction false} RunKeepsReferences(run: seq<Tx>)
    ensures References(Exec(run))
  {
    hide Apply;
    if run == [] {
      assert References(EMPTY);
    } else {
      RunKeepsReferences(run[..|run| - 1]);
      ApplyKeepsReferences(Exec(run[..|run| - 1]), run[|run| - 1]);
    }
  }

  predicate Lists(tx: Tx, id: PlatformId) {
    tx.Merge? && id in tx.fragment.ids
  }

  /** Over any run, a platform id belongs to the email of the first merge that listed it, for ever, and to nobody
      when no merge listed it. */
  lemma {:induction false} FirstListingOwns(run: seq<Tx>, id: PlatformId, i: nat)
    requires i <= |run| && forall j | 0 <= j < i :: !Lists(run[j], id)
    requires i < |run| ==> Lists(run[i], id)
    ensures var ids := Exec(run).ids;
            if i < |run| then id in ids && ids[id] == run[i].fragment.email else id !in ids
  {
    hide Merged, Distinct;
    if run != [] {
      var n := |run| - 1;
      FirstListingOwns(run[..n], id, if i <= n then i else n);
      if run[n].Merge? {
        WithIdsMeaning(Exec(run[..n]).ids, run[n].fragment.email, run[n].fragment.ids);
      }
    }
  }

  /* ---------- names ---------- */

  /** Transaction `i` writes the display name of `email`. */
  predicate WritesAt(run: seq<Tx>, i: nat, email: Email)
    requires i < |run|
  {
    run[i].Merge? && run[i].fragment.email == email
        && WritesName(PersonIn(Exec(run[..i]), email), run[i].fragment, run[i].now)
  }

  lemma ApplyToPerson(c: Cache, tx: Tx, email: Email)
    ensures PersonIn(Apply(c, tx), email)
            == if tx.Merge? && tx.fragment.email == email
                then Some(Merged(PersonIn(c, email), tx.fragment, tx.now))
                else PersonIn(c, email)
  {
    hide Merged, Distinct;
  }

  /** A person's row is what the last write said, with its time. */
  lemma {:induction false} PersonIsLastWrite(run: seq<Tx>, i: nat, k: nat, email: Email)
    requires i < k <= |run| && WritesAt(run, i, email) && forall j: nat | i < j < k :: !WritesAt(run, j, email)
    ensures PersonIn(Exec(run[..k]), email) == Some(Person(run[i].fragment.name, run[i].fragment.source, run[i].now))
    decreases k
  {
    hide Exec, Apply;
    ExecExtends(run, k - 1);
    ApplyToPerson(Exec(run[..k - 1]), run[k - 1], email);
    if i < k - 1 {
      PersonIsLastWrite(run, i, k - 1, email);
      assert !WritesAt(run, k - 1, email);
    }
  }

  /** Whatever the clocks do: of two successive writes of a name, the second comes more than a week after the first
      unless it fills a blank. */
  lemma SuccessiveRenames(run: seq<Tx>, i: nat, j: nat, email: Email)
    requires i < j < |run| && WritesAt(run, i, email) && WritesAt(run, j, email)
    requires forall k: nat | i < k < j :: !WritesAt(run, k, email)
    ensures Blank(run[i].fragment.name) || run[j].now - run[i].now > 604800.0
    ensures !Empty(run[j].fragment.name)
  {
    hide Exec, Apply;
    PersonIsLastWrite(run, i, j, email);
  }

  /** The exact rule, in every run: a merge writes the name iff it brings a non-empty one and the last write left the
      name blank or is more than a week back; the first merge of an email always writes. */
  lemma RenamesExactly(run: seq<Tx>, i: nat, j: nat, email: Email)
    requires i < j < |run| && WritesAt(run, i, email) && run[j].Merge? && run[j].fragment.email == email
    requires forall k: nat | i < k < j :: !WritesAt(run, k, email)
    ensures WritesAt(run, j, email) <==>
              && run[j].fragment.name.Some? && run[j].fragment.name.value != []
              && (|| run[i].fragment.name.None? || Strip(run[i].fragment.name.value) == []
                  || run[j].now - run[i].now > 604800.0)
  {
    hide Exec, Apply, Strip;
    PersonIsLastWrite(run, i, j, email);
  }

  lemma {:induction false} UnmergedIsUnknown(run: seq<Tx>, email: Email)
    requires forall i | 0 <= i < |run| :: !(run[i].Merge? && run[i].fragment.email == email)
    ensures PersonIn(Exec(run), email) == None
  {
    hide Apply;
    if run != [] {
      UnmergedIsUnknown(run[..|run| - 1], email);
      ApplyToPerson(Exec(run[..|run| - 1]), run[|run| - 1], email);
    }
  }

  lemma FirstMergeWrites(run: seq<Tx>, j: nat, email: Email)
    requires j < |run| && run[j].Merge? && run[j].fragment.email == email
    requires forall i | 0 <= i < j :: !(run[i].Merge? && run[i].fragment.email == email)
    ensures WritesAt(run, j, email)
  {
    hide Exec;
    UnmergedIsUnknown(run[..j], email);
  }

  lemma {:induction false} LastWriteBefore(run: seq<Tx>, i: nat, j: nat, email: Email) returns (last: nat)
    requires i < j < |run| && WritesAt(run, i, email)
    ensures i <= last < j && WritesAt(run, last, email) && forall k: nat | last < k < j :: !WritesAt(run, k, email)
  {
    hide Exec, WritesName;
    if WritesAt(run, j - 1, email) {
      last := j - 1;
    } else {
      last := LastWriteBefore(run, i, j - 1, email);
    }
  }

  ghost predicate ClockRuns(run: seq<Tx>) {
    forall i, j | 0 <= i < j < |run| && run[i].Merge? && run[j].Merge? :: run[i].now <= run[j].now
  }

  /** Under one clock, a name that is not blank changes only if it was last written more than a week before, so any two
      writes of which the later replaces a non-blank name are more than a week apart. */
  lemma RenamesAreAWeekApart(run: seq<Tx>, i: nat, j: nat, email: Email)
    requires ClockRuns(run) && i < j < |run| && WritesAt(run, i, email) && WritesAt(run, j, email)
    requires var people := Exec(run[..j]).people; email in people && !Blank(people[email].name)
    ensures run[j].now - run[i].now > 604800.0
  {
    hide Exec, Apply, Blank;
    var last := LastWriteBefore(run, i, j, email);
    PersonIsLastWrite(run, last, j, email);
    SuccessiveRenames(run, last, j, email);
  }

  /** People are never removed, and a name that is not empty never becomes empty. */
  lemma {:induction false} NamesNeverEmptied(run: seq<Tx>, k: nat, email: Email)
    requires k <= |run| && email in Exec(run[..k]).people
    ensures email in Exec(run).people
    ensures !Empty(Exec(run[..k]).people[email].name) ==> !Empty(Exec(run).people[email].name)
    decreases |run|
  {
    hide Apply;
    if k == |run| {
      assert run[..k] == run;
    } else {
      var n := |run| - 1;
      assert run[..n][..k] == run[..k];
      NamesNeverEmptied(run[..n], k, email);
      ApplyToPerson(Exec(run[..n]), run[n], email);
    }
  }

  /* ---------- teams ---------- */

  lemma {:induction false} MergedPeopleStay(run: seq<Tx>, i: nat)
    requires i < |run| && run[i].Merge?
    ensures run[i].fragment.email in Exec(run).people
  {
    ExecExtends(run, i);
    NamesNeverEmptied(run, i + 1, run[i].fragment.email);
  }

  ghost predicate MergedBefore(run: seq<Tx>, i: nat, email: Email)
    requires i <= |run|
  {
    exists j :: 0 <= j < i && run[j].Merge? && run[j].fragment.email == email
  }

  lemma {:induction false} MembersSinceSnapshot(run: seq<Tx>, i: nat, k: nat)
    requires i < k <= |run| && run[i].Snap? && AfterCache(Exec(run[..i]), run[i].snapshot, run[i].enforced).Ok?
    requires forall j | i < j < k && run[j].Snap? :: run[j].snapshot.team != run[i].snapshot.team
    ensures var c := Exec(run[..k]);
            run[i].snapshot.team in c.teams &&
            forall e :: e in MembersOf(c.members, run[i].snapshot.team) <==> e in run[i].snapshot.emails
    decreases k
  {
    hide Exec, MembersOf, AfterCache;
    ExecExtends(run, k - 1);
    var c, tx := Exec(run[..k - 1]), run[k - 1];
    if tx.Snap? {
      SnapshotMeaning(c, tx.snapshot, tx.enforced);
      SnapshotGrowsTeams(c, tx.snapshot, tx.enforced);
    }
    if i < k - 1 {
      MembersSinceSnapshot(run, i, k - 1);
    }
  }

  lemma SnapshotGrowsTeams(c: Cache, s: Snapshot, enforced: bool)
    ensures var after := AfterCache(c, s, enforced); after.Ok? ==> c.teams.Keys <= after.value.teams.Keys
  {
    hide Distinct;
  }

  /** Team snapshot round trip, whatever other workers do in between: once all (distinct) members have been merged, the
      snapshot is accepted, and until the next snapshot of that team a lookup finds exactly those members. */
  lemma TeamRoundTrip(run: seq<Tx>, i: nat)
    requires i < |run| && run[i].Snap? && Distinct(run[i].snapshot.emails)
    requires forall e | e in run[i].snapshot.emails :: MergedBefore(run, i, e)
    requires forall j | i < j < |run| && run[j].Snap? :: run[j].snapshot.team != run[i].snapshot.team
    ensures var c, s := Exec(run), run[i].snapshot;
            s.team in c.teams && forall e :: e in KnownMembers(c, s.team) <==> e in s.emails
  {
    hide Exec, MembersOf, Distinct, References;
    var s := run[i].snapshot;
    forall e | e in s.emails ensures e in Exec(run[..i]).people && e in Exec(run).people {
      var j :| 0 <= j < i && run[j].Merge? && run[j].fragment.email == e;
      assert run[..i][j] == run[j];
      MergedPeopleStay(run[..i], j);
      MergedPeopleStay(run, j);
    }
    SnapshotMeaning(Exec(run[..i]), s, run[i].enforced);
    assert run[..|run|] == run;
    MembersSinceSnapshot(run, i, |run|);
  }

  /** A member whom a snapshot drops leaves the team but not the people table, and no other team changes. */
  lemma DroppedMembersStayPeople(run: seq<Tx>, i: nat, dropped: Email)
    requires i < |run| && run[i].Snap? && AfterCache(Exec(run[..i]), run[i].snapshot, run[i].enforced).Ok?
    requires dropped in Exec(run[..i]).people && dropped !in run[i].snapshot.emails
    ensures var before, after, s := Exec(run[..i]), Exec(run[..i + 1]), run[i].snapshot;
            && dropped !in KnownMembers(after, s.team) && dropped in after.people && dropped in Exec(run).people
            && forall t | t != s.team :: KnownMembers(after, t) == KnownMembers(before, t)
  {
    hide Exec, MembersOf, Distinct;
    ExecExtends(run, i);
    SnapshotMeaning(Exec(run[..i]), run[i].snapshot, run[i].enforced);
    NamesNeverEmptied(run, i, dropped);
    hide AfterCache;
  }

  /** With no failing merge everyone merged is in the people table, and nothing else changes. */
  lemma {:induction false} MergesReachEveryone(c: Cache, members: seq<Fragment>, attempts: seq<Attempt>)
    requires |attempts| == |members| && forall i | 0 <= i < |attempts| :: !attempts[i].fails
    ensures var merged := AfterMerges(c, members, attempts);
            && (forall e | e in EmailsOf(members) :: e in merged.people) && c.people.Keys <= merged.people.Keys
            && merged.members == c.members && merged.teams == c.teams
  {
    hide Merged, WithIds;
    if members != [] {
      var n := |members| - 1;
      MergesReachEveryone(c, members[..n], attempts[..n]);
      assert EmailsOf(members) == EmailsOf(members[..n]) + [members[n].email];
    }
  }

  /** A merge that fails leaves no trace: an email none of whose merges succeeds keeps its row, and nothing is
      created for it. */
  lemma {:induction false} FailedMergesLeaveNothing(
      c: Cache, members: seq<Fragment>, attempts: seq<Attempt>, email: Email)
    requires |attempts| == |members|
    requires forall i | 0 <= i < |members| && members[i].email == email :: attempts[i].fails
    ensures PersonIn(AfterMerges(c, members, attempts), email) == PersonIn(c, email)
  {
    hide Merged, WithIds;
    if members != [] {
      var n := |members| - 1;
      FailedMergesLeaveNothing(c, members[..n], attempts[..n], email);
    }
  }

  /** `merge_team` with no failing merge: its snapshot is refused exactly when an email occurs twice, and afterwards the
      known members of the team are exactly the emails given. */
  lemma MergeTeamRoundTrip(c: Cache, team: TeamName, ttl: int, id: Option<PlatformId>, members: seq<Fragment>,
                           attempts: seq<Attempt>, cachedAt: real, enforced: bool)
    requires |attempts| == |members| && forall i | 0 <= i < |attempts| :: !attempts[i].fails
    ensures var snapshot := Snapshot(team, cachedAt, ttl, EmailsOf(members), id);
            var outcome := AfterCache(AfterMerges(c, members, attempts), snapshot, enforced);
            && (outcome.Ok? <==> Distinct(EmailsOf(members)))
            && (outcome.Ok? ==>
                  && (forall e :: e in KnownMembers(outcome.value, team) <==> e in EmailsOf(members))
                  && (forall t | t != team :: MembersOf(outcome.value.members, t) == MembersOf(c.members, t))
                  && c.people.Keys <= outcome.value.people.Keys)
  {
    hide AfterMerges, MembersOf, Distinct;
    MergesReachEveryone(c, members, attempts);
    SnapshotMeaning(AfterMerges(c, members, attempts), Snapshot(team, cachedAt, ttl, EmailsOf(members), id), enforced);
  }
}
