/**
 The retention policy of scripts/docker-image-retention.py: which images may be removed, computed
 by appending reasons and sorting each group, and what that means for a single image.
 */
module RetentionPolicy {
  import opened Wrappers
  import opened Ordering
  import opened Sequences

  datatype Image = Image(id: string, tags: seq<string>, digests: seq<string>, created: Option<int>)

  datatype Group = Group(name: string, repositories: set<string>)

  /** `grace` is `grace_days` in the unit of the creation times. */
  datatype Config = Config(groups: seq<Group>, keepRecent: nat, grace: nat)

  datatype Reason =
    | UnknownOrMixedOwnership | DanglingOrDigestOnly | MultiTag | ContainerReference | ProtectedPin
    | UnknownCreated | FutureCreated | CreationGrace | RecentReserve

  // ---- Repository names

  function BeforeFirst(s: string, c: char): string {
    if s == "" || s[0] == c then "" else [s[0]] + BeforeFirst(s[1..], c)
  }

  function AfterLast(s: string, c: char): string {
    if s == "" || s[|s| - 1] == c then "" else AfterLast(s[..|s| - 1], c) + [s[|s| - 1]]
  }

  function BeforeLast(s: string, c: char): string {
    if s == "" then "" else if s[|s| - 1] == c then s[..|s| - 1] else BeforeLast(s[..|s| - 1], c)
  }

  /** The repository of an image reference, without tag and digest. */
  function Repository(ref: string): string {
    var name := BeforeFirst(ref, '@');
    if ':' in AfterLast(name, '/') then BeforeLast(name, ':') else name
  }

  lemma {:induction false} BeforeFirstAppend(s: string, c: char, t: string)
    requires c !in s
    ensures BeforeFirst(s, c) == s && BeforeFirst(s + [c] + t, c) == s
  {
    if s != "" {
      assert s == [s[0]] + s[1..];
      BeforeFirstAppend(s[1..], c, t);
      assert (s + [c] + t)[1..] == s[1..] + [c] + t;
    }
  }

  lemma {:induction false} LastPart(s: string, c: char, t: string)
    requires c !in t
    ensures BeforeLast(s + [c] + t, c) == s
  {
    var whole := s + [c] + t;
    if t == "" {
      assert whole == s + [c];
    } else {
      var front := t[..|t| - 1];
      assert t == front + [t[|t| - 1]];
      LastPart(s, c, front);
      assert whole[..|whole| - 1] == s + [c] + front;
    }
  }

  lemma {:induction false} AfterLastKeeps(s: string, c: char, t: string)
    requires c !in t
    ensures AfterLast(s + t, c) == AfterLast(s, c) + t
  {
    if t == "" {
      assert s + t == s;
    } else {
      var front := t[..|t| - 1];
      assert t == front + [t[|t| - 1]];
      AfterLastKeeps(s, c, front);
      assert (s + t)[..|s + t| - 1] == s + front;
    }
  }

  /** A tag is cut off whatever port or path the repository contains. */
  lemma RepositoryOfTag(repository: string, tag: string)
    requires '@' !in repository
    requires '@' !in tag && '/' !in tag && ':' !in tag
    ensures Repository(repository + ":" + tag) == repository
  {
    var ref := repository + ":" + tag;
    BeforeFirstAppend(ref, '@', "");
    assert ref == repository + (":" + tag);
    AfterLastKeeps(repository, '/', ":" + tag);
    assert AfterLast(ref, '/')[|AfterLast(repository, '/')|] == ':';
    LastPart(repository, ':', tag);
  }

  /** A digest does not change the repository. */
  lemma RepositoryOfDigest(ref: string, digest: string)
    requires '@' !in ref
    ensures Repository(ref + "@" + digest) == Repository(ref)
  {
    BeforeFirstAppend(ref, '@', digest);
  }

  /** Without tag and digest the reference is the repository. */
  lemma RepositoryPlain(repository: string)
    requires '@' !in repository && ':' !in AfterLast(repository, '/')
    ensures Repository(repository) == repository
  {
    BeforeFirstAppend(repository, '@', "");
  }

  // ---- Ownership and membership

  function Aliases(x: Image): set<string> { set r | r in x.tags + x.digests }

  function Repositories(x: Image): set<string> { set r | r in x.tags + x.digests :: Repository(r) }

  /** The groups that name one of the repositories. */
  function Overlapping(groups: seq<Group>, repositories: set<string>): seq<Group> {
    if groups == [] then []
    else (if repositories * groups[0].repositories != {} then [groups[0]] else [])
         + Overlapping(groups[1..], repositories)
  }

  /** The one group that owns all of an image's names, if there is one. */
  function GroupOf(config: Config, x: Image): Option<string> {
    var groups := Overlapping(config.groups, Repositories(x));
    if |groups| == 1 && x.tags != [] && Repositories(x) <= groups[0].repositories then Some(groups[0].name) else None
  }

  predicate Member(config: Config, x: Image, group: string, now: int) {
    GroupOf(config, x) == Some(group) && x.created.Some? && x.created.value <= now
  }

  /** Newer by creation time, ties broken by id. */
  predicate NewerThan(y: Image, x: Image) {
    && y.created.Some? && x.created.Some?
    && (y.created.value > x.created.value
        || (y.created.value == x.created.value && StringLe(x.id, y.id) && x.id != y.id))
  }

  /** The members of the image's group that are newer than it. */
  ghost function Newer(config: Config, inventory: set<Image>, x: Image, now: int): set<Image> {
    set y | y in inventory && GroupOf(config, x).Some? && Member(config, y, GroupOf(config, x).value, now)
      && NewerThan(y, x)
  }

  /** What the policy promises of a removable image. */
  ghost predicate Candidate(config: Config, inventory: set<Image>, used: set<string>, pins: set<string>, now: int,
                            x: Image) {
    && x in inventory
    && GroupOf(config, x).Some? && |x.tags| == 1
    && x.id !in used && x.id !in pins && Aliases(x) !! pins
    && x.created.Some? && x.created.value <= now && now - x.created.value >= config.grace
    && |Newer(config, inventory, x, now)| >= config.keepRecent
  }

  // ---- The same in terms of the configured groups and an image's own fields

  /**
   Group `g` owns the image: it has tags, every tag and digest is of a repository of this group, and none is
   of a repository of another group.
   */
  ghost predicate Owns(groups: seq<Group>, g: nat, x: Image) {
    && g < |groups| && x.tags != []
    && (forall r :: r in x.tags ==> Repository(r) in groups[g].repositories)
    && (forall r :: r in x.digests ==> Repository(r) in groups[g].repositories)
    && forall h :: 0 <= h < |groups| && h != g ==>
         && (forall r :: r in x.tags ==> Repository(r) !in groups[h].repositories)
         && (forall r :: r in x.digests ==> Repository(r) !in groups[h].repositories)
  }

  /** `newer` are members of the group that were created later, or at the same time with a greater id. */
  ghost predicate AllNewer(groups: seq<Group>, g: nat, inventory: set<Image>, now: int, x: Image, newer: set<Image>) {
    forall y :: y in newer ==>
      && y in inventory && Owns(groups, g, y) && y.created.Some? && x.created.Some?
      && x.created.value <= y.created.value <= now
      && (x.created.value == y.created.value ==> x.id != y.id && StringLe(x.id, y.id))
  }

  /**
   The image may be removed: it has one tag, neither its id nor its tag nor any digest is pinned, no container
   refers to it, it is old enough, and at least `keepRecent` images of the one group that owns it are newer.
   */
  ghost predicate Removable(config: Config, inventory: set<Image>, used: set<string>, pins: set<string>, now: int,
                            x: Image) {
    && x in inventory && |x.tags| == 1 && x.id !in used && x.id !in pins
    && (forall t :: t in x.tags ==> t !in pins) && (forall d :: d in x.digests ==> d !in pins)
    && x.created.Some? && x.created.value <= now && x.created.value + config.grace <= now
    && exists g: nat, newer: set<Image> ::
         && Owns(config.groups, g, x) && AllNewer(config.groups, g, inventory, now, x, newer)
         && |newer| >= config.keepRecent
  }

  ghost predicate Overlaps(g: Group, x: Image) {
    (exists r :: r in x.tags && Repository(r) in g.repositories)
    || (exists r :: r in x.digests && Repository(r) in g.repositories)
  }

  lemma OverlapsExact(g: Group, x: Image)
    ensures Repositories(x) * g.repositories != {} <==> Overlaps(g, x)
  {
    hide Repository;
    if n :| n in Repositories(x) * g.repositories {
      var r :| r in x.tags + x.digests && Repository(r) == n;
      assert r in x.tags || r in x.digests;
    }
    if r :| r in x.tags && Repository(r) in g.repositories {
      assert r in x.tags + x.digests && Repository(r) in Repositories(x) * g.repositories;
    }
    if r :| r in x.digests && Repository(r) in g.repositories {
      assert r in x.tags + x.digests && Repository(r) in Repositories(x) * g.repositories;
    }
  }

  lemma {:induction false} OverlappingNone(groups: seq<Group>, x: Image)
    ensures Overlapping(groups, Repositories(x)) == [] <==> forall h :: 0 <= h < |groups| ==> !Overlaps(groups[h], x)
  {
    hide Repositories;
    hide Overlaps;
    if groups != [] {
      OverlapsExact(groups[0], x);
      OverlappingNone(groups[1..], x);
      assert forall h :: 0 < h < |groups| ==> groups[h] == groups[1..][h - 1];
      assert forall h :: 0 <= h < |groups| - 1 ==> groups[1..][h] == groups[h + 1];
    }
  }

  ghost predicate OnlyOverlap(groups: seq<Group>, g: nat, x: Image) {
    g < |groups| && Overlaps(groups[g], x) && forall h :: 0 <= h < |groups| && h != g ==> !Overlaps(groups[h], x)
  }

  lemma {:induction false} OverlappingOne(groups: seq<Group>, x: Image) returns (g: nat)
    requires |Overlapping(groups, Repositories(x))| == 1
    ensures OnlyOverlap(groups, g, x) && Overlapping(groups, Repositories(x)) == [groups[g]]
  {
    hide Repositories;
    hide Overlaps;
    OverlapsExact(groups[0], x);
    OverlappingNone(groups[1..], x);
    if Overlaps(groups[0], x) {
      g := 0;
      assert forall h :: 0 < h < |groups| ==> groups[h] == groups[1..][h - 1];
    } else {
      var k := OverlappingOne(groups[1..], x);
      g := k + 1;
      assert forall h :: 0 < h < |groups| ==> groups[h] == groups[1..][h - 1];
    }
  }

  lemma {:induction false} OnlyOverlapFound(groups: seq<Group>, x: Image, g: nat)
    requires OnlyOverlap(groups, g, x)
    ensures Overlapping(groups, Repositories(x)) == [groups[g]]
  {
    hide Repositories;
    hide Overlaps;
    OverlapsExact(groups[0], x);
    assert forall h :: 0 < h < |groups| ==> groups[h] == groups[1..][h - 1];
    assert forall h :: 0 <= h < |groups| - 1 ==> groups[1..][h] == groups[h + 1];
    if g == 0 { OverlappingNone(groups[1..], x); } else { OnlyOverlapFound(groups[1..], x, g - 1); }
  }

  lemma RepositoriesWithin(x: Image, g: Group)
    ensures Repositories(x) <= g.repositories
            <==> (forall r :: r in x.tags ==> Repository(r) in g.repositories)
                 && (forall r :: r in x.digests ==> Repository(r) in g.repositories)
  {
    hide Repository;
    if Repositories(x) <= g.repositories {
      forall r | r in x.tags ensures Repository(r) in g.repositories {
        assert r in x.tags + x.digests && Repository(r) in Repositories(x);
      }
      forall r | r in x.digests ensures Repository(r) in g.repositories {
        assert r in x.tags + x.digests && Repository(r) in Repositories(x);
      }
    }
  }

  lemma OwnsExact(groups: seq<Group>, g: nat, x: Image)
    ensures Owns(groups, g, x) <==>
            OnlyOverlap(groups, g, x) && x.tags != [] && Repositories(x) <= groups[g].repositories
  {
    hide Repository;
    hide Repositories;
    if g < |groups| {
      RepositoriesWithin(x, groups[g]);
      if x.tags != [] { assert x.tags[0] in x.tags; }
    }
  }

  /** The group of an image is the one configured group that owns it, if there is one. */
  lemma GroupExact(config: Config, x: Image, name: string)
    ensures GroupOf(config, x) == Some(name)
            <==> exists g: nat :: Owns(config.groups, g, x) && config.groups[g].name == name
  {
    hide Repositories;
    hide Repository;
    hide OnlyOverlap;
    if GroupOf(config, x) == Some(name) {
      var g := OverlappingOne(config.groups, x);
      OwnsExact(config.groups, g, x);
      OwnedIndex(config.groups, g, x);
    }
    if g: nat :| g < |config.groups| && Owns(config.groups, g, x) && config.groups[g].name == name {
      OwnsExact(config.groups, g, x);
      OnlyOverlapFound(config.groups, x, g);
    }
  }

  lemma OwnedIndex(groups: seq<Group>, g: nat, x: Image)
    ensures OnlyOverlap(groups, g, x) || Owns(groups, g, x) ==> g < |groups|
  {
  }

  ghost predicate DistinctIds(inventory: set<Image>) {
    forall x, y :: x in inventory && y in inventory && x.id == y.id ==> x == y
  }

  // ---- Stability

  lemma NewerTransitive(z: Image, y: Image, x: Image)
    requires NewerThan(z, y) && NewerThan(y, x)
    ensures NewerThan(z, x)
  {
    if z.created == y.created == x.created {
      StringLeTransitive(x.id, y.id, z.id);
      if x.id == z.id { StringLeAntisymmetric(x.id, y.id); }
    }
  }

  /** Removing a removable image never takes another image's reserve below `keepRecent`. */
  lemma ReserveStable(config: Config, inventory: set<Image>, used: set<string>, pins: set<string>, now: int,
                      removed: Image, x: Image)
    requires Candidate(config, inventory, used, pins, now, removed)
    ensures |Newer(config, inventory, x, now)| >= config.keepRecent
            <==> |Newer(config, inventory - {removed}, x, now)| >= config.keepRecent
  {
    var before, after := Newer(config, inventory, x, now), Newer(config, inventory - {removed}, x, now);
    if removed in before {
      assert after == before - {removed};
      var newest := Newer(config, inventory, removed, now);
      forall y | y in newest ensures y in after {
        NewerTransitive(y, removed, x);
      }
      SubsetSize(newest, after);
      SubsetSize(after, before);
    } else {
      assert after == before;
    }
  }

  lemma SubsetSize<T>(a: set<T>, b: set<T>)
    requires a <= b
    ensures |a| <= |b|
  {
    assert b == a + (b - a);
  }

  /** Removing a removable image changes no other image's candidacy. */
  lemma CandidacyStable(config: Config, inventory: set<Image>, used: set<string>, pins: set<string>, now: int,
                        removed: Image, x: Image)
    requires Candidate(config, inventory, used, pins, now, removed) && x != removed
    ensures Candidate(config, inventory, used, pins, now, x)
            <==> Candidate(config, inventory - {removed}, used, pins, now, x)
  {
    ReserveStable(config, inventory, used, pins, now, removed, x);
  }

  /** A later clock only adds candidates. */
  lemma CandidacyMonotone(config: Config, inventory: set<Image>, used: set<string>, pins: set<string>, now: int,
                          later: int, x: Image)
    requires now <= later && Candidate(config, inventory, used, pins, now, x)
    ensures Candidate(config, inventory, used, pins, later, x)
  {
    SubsetSize(Newer(config, inventory, x, now), Newer(config, inventory, x, later));
  }

  // ---- The sorted reserve of a group

  function Members(config: Config, images: seq<Image>, group: string, now: int): seq<Image> {
    if images == [] then []
    else (if Member(config, images[0], group, now) then [images[0]] else [])
         + Members(config, images[1..], group, now)
  }

  function CreatedOf(x: Image): int { if x.created.Some? then x.created.value else 0 }

  /** The sort order on `(date, id)` pairs, newest first. */
  predicate DateIdDescending(a: Image, b: Image) {
    CreatedOf(a) > CreatedOf(b) || (CreatedOf(a) == CreatedOf(b) && StringLe(b.id, a.id))
  }

  function AsSet<T>(s: seq<T>): set<T> { set x | x in s }

  /** The most recent members of a group. */
  function Reserve(config: Config, images: seq<Image>, group: string, now: int): seq<Image> {
    Take(Sort(DateIdDescending, Members(config, images, group, now)), config.keepRecent)
  }

  lemma DateIdOrder()
    ensures TotalPreorder(DateIdDescending)
  {
    StringLeOrder();
  }

  lemma {:induction false} MembersExact(config: Config, images: seq<Image>, group: string, now: int)
    ensures forall x :: x in Members(config, images, group, now) <==> x in images && Member(config, x, group, now)
    ensures Distinct(images) ==> Distinct(Members(config, images, group, now))
  {
    if images != [] {
      MembersExact(config, images[1..], group, now);
      assert images == [images[0]] + images[1..];
      var rest := Members(config, images[1..], group, now);
      if Distinct(images) {
        assert Distinct(images[1..]);
        assert images[0] !in images[1..];
        assert images[0] !in rest;
      }
    }
  }

  ghost predicate Distinct<T>(s: seq<T>) { forall i, j :: 0 <= i < j < |s| ==> s[i] != s[j] }

  lemma DistinctCons<T>(x: T, s: seq<T>)
    requires x !in s && Distinct(s)
    ensures Distinct([x] + s)
  {
  }

  lemma DistinctPermutation<T>(a: seq<T>, b: seq<T>)
    requires multiset(a) == multiset(b) && Distinct(a)
    ensures Distinct(b)
  {
    forall i, j | 0 <= i < j < |b| ensures b[i] != b[j] {
      assert b == b[..i] + [b[i]] + b[i + 1..j] + [b[j]] + b[j + 1..];
      assert b[i] == b[j] ==> multiset(b)[b[i]] >= 2;
      DistinctCount(a, b[i]);
    }
  }

  lemma {:induction false} DistinctCount<T>(a: seq<T>, x: T)
    requires Distinct(a)
    ensures multiset(a)[x] <= 1
  {
    if a != [] {
      assert Distinct(a[1..]) && a[0] !in a[1..];
      assert a == [a[0]] + a[1..];
      DistinctCount(a[1..], x);
    }
  }

  lemma {:induction false} PrefixSize<T>(s: seq<T>, n: nat)
    requires Distinct(s) && n <= |s|
    ensures |AsSet(s[..n])| == n
  {
    hide AsSet;
    if n == 0 {
      assert AsSet(s[..0]) == {} by { NothingAsSet<T>(); }
    } else {
      PrefixSize(s, n - 1);
      PrefixNext(s, n);
    }
  }

  lemma NothingAsSet<T>()
    ensures AsSet<T>([]) == {}
  {
  }

  lemma PrefixNext<T>(s: seq<T>, n: nat)
    requires Distinct(s) && 0 < n <= |s|
    ensures AsSet(s[..n]) == AsSet(s[..n - 1]) + {s[n - 1]} && s[n - 1] !in AsSet(s[..n - 1])
  {
    assert s[..n] == s[..n - 1] + [s[n - 1]];
  }

  /** `sorted` arranges the members of a group, newest first. */
  ghost predicate Arranges(config: Config, inventory: set<Image>, group: string, now: int, sorted: seq<Image>) {
    && Distinct(sorted) && Sorted(DateIdDescending, sorted)
    && forall x :: x in sorted <==> x in inventory && Member(config, x, group, now)
  }

  lemma AheadIsNewer(config: Config, inventory: set<Image>, group: string, now: int, sorted: seq<Image>, p: nat, i: nat)
    requires i < p < |sorted| && Arranges(config, inventory, group, now, sorted) && DistinctIds(inventory)
    ensures sorted[i] in Newer(config, inventory, sorted[p], now)
  {
    assert sorted[i] in sorted && sorted[p] in sorted;
    assert DateIdDescending(sorted[i], sorted[p]) && sorted[i] != sorted[p];
  }

  lemma NewerIsAhead(config: Config, inventory: set<Image>, group: string, now: int, sorted: seq<Image>, p: nat,
                     y: Image)
    requires p < |sorted| && Arranges(config, inventory, group, now, sorted)
    requires y in Newer(config, inventory, sorted[p], now)
    ensures y in sorted[..p]
  {
    assert sorted[p] in sorted;
    assert y in sorted;
    var i :| 0 <= i < |sorted| && sorted[i] == y;
    NotBothNewer(y, sorted[p]);
    assert i < p;
  }

  /** The position of an image in its sorted group is the number of newer members. */
  lemma RankCountsNewer(config: Config, inventory: set<Image>, group: string, now: int, sorted: seq<Image>, p: nat)
    requires p < |sorted| && Arranges(config, inventory, group, now, sorted) && DistinctIds(inventory)
    ensures |Newer(config, inventory, sorted[p], now)| == p
  {
    hide Newer;
    forall y | y in AsSet(sorted[..p]) ensures y in Newer(config, inventory, sorted[p], now) {
      var i :| 0 <= i < p && sorted[i] == y;
      AheadIsNewer(config, inventory, group, now, sorted, p, i);
    }
    forall y | y in Newer(config, inventory, sorted[p], now) ensures y in AsSet(sorted[..p]) {
      NewerIsAhead(config, inventory, group, now, sorted, p, y);
    }
    assert AsSet(sorted[..p]) == Newer(config, inventory, sorted[p], now);
    PrefixSize(sorted, p);
  }

  lemma NotBothNewer(y: Image, x: Image)
    requires NewerThan(y, x)
    ensures !DateIdDescending(x, y) && y != x
  {
    if CreatedOf(x) == CreatedOf(y) && StringLe(y.id, x.id) { StringLeAntisymmetric(x.id, y.id); }
  }

  /** The sorted reserve holds exactly the members with fewer than `keepRecent` newer ones. */
  lemma ReserveExact(config: Config, images: seq<Image>, group: string, now: int, x: Image)
    requires Distinct(images) && DistinctIds(AsSet(images))
    ensures x in Reserve(config, images, group, now)
            <==> x in images && Member(config, x, group, now)
                 && |Newer(config, AsSet(images), x, now)| < config.keepRecent
  {
    var inventory := AsSet(images);
    var members := Members(config, images, group, now);
    var sorted := Sort(DateIdDescending, members);
    DateIdOrder();
    MembersExact(config, images, group, now);
    SortSorts(DateIdDescending, members);
    SortPermutes(DateIdDescending, members);
    DistinctPermutation(members, sorted);
    forall y ensures y in sorted <==> y in inventory && Member(config, y, group, now) {
      assert y in sorted <==> y in multiset(sorted);
      assert y in members <==> y in multiset(members);
    }
    if x in sorted {
      var p :| 0 <= p < |sorted| && sorted[p] == x;
      RankCountsNewer(config, inventory, group, now, sorted, p);
      assert x in Take(sorted, config.keepRecent) <==> p < config.keepRecent;
    }
  }

  // ---- Candidates are exactly the removable images

  /** Members of one group, by name or by position in the configuration. */
  lemma SameGroup(config: Config, g: nat, x: Image, y: Image)
    requires DistinctNames(config.groups) && Owns(config.groups, g, x)
    ensures GroupOf(config, x) == Some(config.groups[g].name)
    ensures GroupOf(config, y) == GroupOf(config, x) <==> Owns(config.groups, g, y)
  {
    hide GroupOf;
    hide Repository;
    GroupExact(config, x, config.groups[g].name);
    GroupExact(config, y, config.groups[g].name);
  }

  lemma NewerExact(config: Config, inventory: set<Image>, now: int, g: nat, x: Image, y: Image)
    requires DistinctNames(config.groups) && Owns(config.groups, g, x)
    ensures y in Newer(config, inventory, x, now) <==> AllNewer(config.groups, g, inventory, now, x, {y})
  {
    SameGroup(config, g, x, y);
    hide Owns;
    hide GroupOf;
    hide StringLe;
  }

  /** A candidate is exactly a removable image. */
  lemma CandidateExact(config: Config, inventory: set<Image>, used: set<string>, pins: set<string>, now: int, x: Image)
    requires DistinctNames(config.groups)
    ensures Candidate(config, inventory, used, pins, now, x) <==> Removable(config, inventory, used, pins, now, x)
  {
    hide GroupOf;
    hide Repository;
    hide AllNewer;
    hide Newer;
    hide StringLe;
    hide Aliases;
    AliasesExact(x, pins);
    if Candidate(config, inventory, used, pins, now, x) {
      GroupExact(config, x, GroupOf(config, x).value);
      var g: nat :| Owns(config.groups, g, x) && config.groups[g].name == GroupOf(config, x).value;
      var newer := Newer(config, inventory, x, now);
      forall y | y in newer ensures AllNewer(config.groups, g, inventory, now, x, {y}) {
        NewerExact(config, inventory, now, g, x, y);
      }
      EachNewer(config.groups, g, inventory, now, x, newer);
    }
    if Removable(config, inventory, used, pins, now, x) {
      var g: nat, newer: set<Image> :| Owns(config.groups, g, x) && AllNewer(config.groups, g, inventory, now, x, newer)
                                       && |newer| >= config.keepRecent;
      SameGroup(config, g, x, x);
      forall y | y in newer ensures y in Newer(config, inventory, x, now) {
        EachNewer(config.groups, g, inventory, now, x, newer);
        NewerExact(config, inventory, now, g, x, y);
      }
      SubsetSize(newer, Newer(config, inventory, x, now));
    }
  }

  lemma EachNewer(groups: seq<Group>, g: nat, inventory: set<Image>, now: int, x: Image, newer: set<Image>)
    ensures AllNewer(groups, g, inventory, now, x, newer)
            <==> forall y :: y in newer ==> AllNewer(groups, g, inventory, now, x, {y})
  {
    hide Owns;
    hide StringLe;
    if forall y :: y in newer ==> AllNewer(groups, g, inventory, now, x, {y}) {
      forall y | y in newer ensures AllNewer(groups, g, inventory, now, x, {y}) && y in {y} {}
    }
  }

  lemma AliasesExact(x: Image, pins: set<string>)
    ensures Aliases(x) !! pins
            <==> (forall t :: t in x.tags ==> t !in pins) && (forall d :: d in x.digests ==> d !in pins)
  {
    if Aliases(x) !! pins {
      forall t | t in x.tags ensures t !in pins { assert t in x.tags + x.digests && t in Aliases(x); }
      forall d | d in x.digests ensures d !in pins { assert d in x.tags + x.digests && d in Aliases(x); }
    }
  }

  // ---- The policy

  function When(b: bool, reason: Reason): seq<Reason> { if b then [reason] else [] }

  function AgeReasons(config: Config, now: int, x: Image): seq<Reason> {
    match x.created
    case None => [UnknownCreated]
    case Some(date) => if date > now then [FutureCreated] else When(now - date < config.grace, CreationGrace)
  }

  /** The reasons found while looking at one image alone, in the order they are recorded. */
  function OwnReasons(config: Config, used: set<string>, pins: set<string>, now: int, x: Image): seq<Reason> {
    When(GroupOf(config, x).None?, UnknownOrMixedOwnership)
    + When(x.tags == [], DanglingOrDigestOnly)
    + When(|x.tags| > 1, MultiTag)
    + When(x.id in used, ContainerReference)
    + When(x.id in pins || !(Aliases(x) !! pins), ProtectedPin)
    + AgeReasons(config, now, x)
  }

  ghost predicate Reserved(config: Config, images: seq<Image>, now: int, x: Image) {
    && GroupOf(config, x).Some? && Member(config, x, GroupOf(config, x).value, now)
    && |Newer(config, AsSet(images), x, now)| < config.keepRecent
  }

  /** An image without reasons is exactly a candidate. */
  lemma NoReasonsExact(config: Config, images: seq<Image>, used: set<string>, pins: set<string>, now: int, x: Image)
    requires x in images
    ensures Candidate(config, AsSet(images), used, pins, now, x)
            <==> OwnReasons(config, used, pins, now, x) == [] && !Reserved(config, images, now, x)
  {
    if GroupOf(config, x).Some? && x.created.Some? && x.created.value <= now {
      assert Member(config, x, GroupOf(config, x).value, now);
    }
  }

  function ReservedReason(b: bool): seq<Reason> { if b then [RecentReserve] else [] }

  /** `reasons` holds what is recorded once the groups named in `done` are sorted. */
  ghost predicate Recorded(config: Config, images: seq<Image>, used: set<string>, pins: set<string>, now: int,
                           done: set<string>, reasons: map<string, seq<Reason>>) {
    forall x :: x in images ==>
      && x.id in reasons
      && reasons[x.id] == OwnReasons(config, used, pins, now, x)
                          + ReservedReason(Reserved(config, images, now, x) && GroupOf(config, x).value in done)
  }

  ghost predicate DistinctNames(groups: seq<Group>) {
    forall i, j :: 0 <= i < j < |groups| ==> groups[i].name != groups[j].name
  }

  /** What an inventory is checked for. */
  predicate UniqueIds(images: seq<Image>) {
    forall i, j :: 0 <= i < j < |images| ==> images[i].id != images[j].id
  }

  lemma UniqueIdsDistinct(images: seq<Image>)
    requires UniqueIds(images)
    ensures Distinct(images) && DistinctIds(AsSet(images))
  {
  }

  /** The first loop: every image's own reasons. */
  method RecordOwnReasons(config: Config, images: seq<Image>, used: set<string>, pins: set<string>, now: int)
    returns (reasons: map<string, seq<Reason>>)
    requires UniqueIds(images)
    ensures forall x :: x in images ==> x.id in reasons && reasons[x.id] == OwnReasons(config, used, pins, now, x)
  {
    hide OwnReasons;
    reasons := map[];
    for i := 0 to |images|
      invariant forall k :: 0 <= k < i ==>
                  images[k].id in reasons && reasons[images[k].id] == OwnReasons(config, used, pins, now, images[k])
    {
      reasons := reasons[images[i].id := OwnReasons(config, used, pins, now, images[i])];
    }
  }

  function Ids(images: seq<Image>): set<string> { set x | x in images :: x.id }

  lemma IdsGrow(images: seq<Image>, i: nat)
    requires i < |images|
    requires forall i, j :: 0 <= i < j < |images| ==> images[i].id != images[j].id
    ensures Ids(images[..i + 1]) == Ids(images[..i]) + {images[i].id} && images[i].id !in Ids(images[..i])
  {
    assert images[..i + 1] == images[..i] + [images[i]];
    forall x | x in images[..i] ensures x.id != images[i].id {
      var k :| 0 <= k < i && images[k] == x;
    }
  }

  /** The inner loop of the second: a further reason for every image of one reserve. */
  method RecordReserve(reserve: seq<Image>, before: map<string, seq<Reason>>)
    returns (reasons: map<string, seq<Reason>>)
    requires forall x :: x in reserve ==> x.id in before
    requires forall i, j :: 0 <= i < j < |reserve| ==> reserve[i].id != reserve[j].id
    ensures reasons.Keys == before.Keys
    ensures forall id :: id in before ==> reasons[id] == before[id] + ReservedReason(id in Ids(reserve))
  {
    reasons := before;
    for i := 0 to |reserve|
      invariant reasons.Keys == before.Keys
      invariant forall id :: id in before ==> reasons[id] == before[id] + ReservedReason(id in Ids(reserve[..i]))
    {
      hide Ids;
      var id := reserve[i].id;
      assert reserve[i] in reserve;
      IdsGrow(reserve, i);
      assert before[id] + ReservedReason(false) == before[id];
      reasons := reasons[id := reasons[id] + [RecentReserve]];
    }
    assert reserve[..|reserve|] == reserve;
  }

  lemma ReserveDistinctIds(config: Config, images: seq<Image>, group: string, now: int)
    requires UniqueIds(images)
    ensures var reserve := Reserve(config, images, group, now);
            && (forall x :: x in reserve ==> x in images)
            && (forall i, j :: 0 <= i < j < |reserve| ==> reserve[i].id != reserve[j].id)
  {
    var members := Members(config, images, group, now);
    var sorted := Sort(DateIdDescending, members);
    var reserve := Reserve(config, images, group, now);
    UniqueIdsDistinct(images);
    MembersExact(config, images, group, now);
    SortPermutes(DateIdDescending, members);
    DistinctPermutation(members, sorted);
    forall x | x in reserve ensures x in images { ReserveExact(config, images, group, now, x); }
    forall i, j | 0 <= i < j < |reserve| ensures reserve[i].id != reserve[j].id {
      assert reserve[i] == sorted[i] && reserve[j] == sorted[j];
      assert reserve[i] in reserve && reserve[j] in reserve;
      assert reserve[i] in AsSet(images) && reserve[j] in AsSet(images);
    }
  }

  /** Sorting one more group records its reserve. */
  lemma RecordedNext(config: Config, images: seq<Image>, used: set<string>, pins: set<string>, now: int,
                     done: set<string>, group: string,
                     before: map<string, seq<Reason>>, after: map<string, seq<Reason>>)
    requires UniqueIds(images) && group !in done
    requires Recorded(config, images, used, pins, now, done, before)
    requires after.Keys == before.Keys
    requires forall id :: id in before ==>
               after[id] == before[id] + ReservedReason(id in Ids(Reserve(config, images, group, now)))
    ensures Recorded(config, images, used, pins, now, done + {group}, after)
  {
    hide OwnReasons;
    hide Reserve;
    forall x | x in images
      ensures x.id in after
      ensures after[x.id] == OwnReasons(config, used, pins, now, x)
                + ReservedReason(Reserved(config, images, now, x) && GroupOf(config, x).value in done + {group})
    {
      RecordedImage(config, images, used, pins, now, done, group, before, after, x);
    }
  }

  lemma RecordedImage(config: Config, images: seq<Image>, used: set<string>, pins: set<string>, now: int,
                      done: set<string>, group: string,
                      before: map<string, seq<Reason>>, after: map<string, seq<Reason>>, x: Image)
    requires UniqueIds(images) && group !in done && x in images
    requires Recorded(config, images, used, pins, now, done, before)
    requires x.id in after
    requires after[x.id] == before[x.id] + ReservedReason(x.id in Ids(Reserve(config, images, group, now)))
    ensures after[x.id] == OwnReasons(config, used, pins, now, x)
              + ReservedReason(Reserved(config, images, now, x) && GroupOf(config, x).value in done + {group})
  {
    hide OwnReasons;
    hide Reserve;
    hide Newer;
    hide GroupOf;
    var reserve := Reserve(config, images, group, now);
    UniqueIdsDistinct(images);
    ReserveDistinctIds(config, images, group, now);
    assert x in AsSet(images) && forall y :: y in reserve ==> y in AsSet(images);
    assert x.id in Ids(reserve) <==> x in reserve;
    ReserveExact(config, images, group, now, x);
    assert x in reserve <==> Reserved(config, images, now, x) && GroupOf(config, x) == Some(group);
  }

  lemma {:induction false} OverlappingWithin(groups: seq<Group>, repositories: set<string>)
    ensures forall g :: g in Overlapping(groups, repositories) ==> g in groups
  {
    if groups != [] {
      OverlappingWithin(groups[1..], repositories);
      assert groups == [groups[0]] + groups[1..];
    }
  }

  function GroupNames(groups: seq<Group>): set<string> { set g | g in groups :: g.name }

  lemma GroupOfNamed(config: Config, x: Image)
    ensures GroupOf(config, x).Some? ==> GroupOf(config, x).value in GroupNames(config.groups)
  {
    OverlappingWithin(config.groups, Repositories(x));
  }

  /** The second loop: the reserves of all groups. */
  method RecordReserves(config: Config, images: seq<Image>, used: set<string>, pins: set<string>, now: int,
                        own: map<string, seq<Reason>>) returns (reasons: map<string, seq<Reason>>)
    requires UniqueIds(images) && DistinctNames(config.groups)
    requires Recorded(config, images, used, pins, now, {}, own)
    ensures Recorded(config, images, used, pins, now, GroupNames(config.groups), reasons)
  {
    reasons := own;
    ghost var done := {};
    for i := 0 to |config.groups|
      invariant done == GroupNames(config.groups[..i])
      invariant Recorded(config, images, used, pins, now, done, reasons)
    {
      hide Recorded;
      hide Reserve;
      var group := config.groups[i].name;
      var reserve := Reserve(config, images, group, now);
      ReserveDistinctIds(config, images, group, now);
      RecordedKeys(config, images, used, pins, now, done, reasons);
      GroupNamesGrow(config.groups, i);
      var before := reasons;
      reasons := RecordReserve(reserve, before);
      RecordedNext(config, images, used, pins, now, done, group, before, reasons);
      done := done + {group};
    }
    assert config.groups[..|config.groups|] == config.groups;
  }

  lemma RecordedKeys(config: Config, images: seq<Image>, used: set<string>, pins: set<string>, now: int,
                     done: set<string>, reasons: map<string, seq<Reason>>)
    requires Recorded(config, images, used, pins, now, done, reasons)
    ensures forall x :: x in images ==> x.id in reasons
  {
  }

  lemma GroupNamesGrow(groups: seq<Group>, i: nat)
    requires i < |groups| && DistinctNames(groups)
    ensures GroupNames(groups[..i + 1]) == GroupNames(groups[..i]) + {groups[i].name}
    ensures groups[i].name !in GroupNames(groups[..i])
  {
    assert groups[..i + 1] == groups[..i] + [groups[i]];
    forall g | g in groups[..i] ensures g.name != groups[i].name {
      var k :| 0 <= k < i && groups[k] == g;
    }
  }

  /** The ids without reasons, in the order of the images. */
  function Unreasoned(images: seq<Image>, reasons: map<string, seq<Reason>>): seq<string>
    requires forall x :: x in images ==> x.id in reasons
  {
    if images == [] then []
    else
      assert images == [images[0]] + images[1..];
      (if reasons[images[0].id] == [] then [images[0].id] else []) + Unreasoned(images[1..], reasons)
  }

  lemma {:induction false} UnreasonedExact(images: seq<Image>, reasons: map<string, seq<Reason>>)
    requires forall x :: x in images ==> x.id in reasons
    ensures forall id :: id in Unreasoned(images, reasons)
                         <==> exists x :: x in images && x.id == id && reasons[x.id] == []
  {
    if images != [] {
      assert images == [images[0]] + images[1..];
      UnreasonedExact(images[1..], reasons);
    }
  }

  lemma {:induction false} UnreasonedDistinct(images: seq<Image>, reasons: map<string, seq<Reason>>)
    requires forall x :: x in images ==> x.id in reasons
    requires forall i, j :: 0 <= i < j < |images| ==> images[i].id != images[j].id
    ensures Distinct(Unreasoned(images, reasons))
  {
    if images != [] {
      var rest := images[1..];
      assert images == [images[0]] + rest;
      UnreasonedDistinct(rest, reasons);
      UnreasonedExact(rest, reasons);
      forall id | id in Unreasoned(rest, reasons) ensures id != images[0].id {
        var x :| x in rest && x.id == id;
        var k :| 0 <= k < |rest| && rest[k] == x;
        assert images[k + 1] == x;
      }
      DistinctCons(images[0].id, Unreasoned(rest, reasons));
      assert [] + Unreasoned(rest, reasons) == Unreasoned(rest, reasons);
    }
  }

  /**
   The recorded reasons one by one, over the image's own fields: what each of them says is exactly what makes
   the policy record it.
   */
  ghost predicate ReasonsMean(config: Config, images: seq<Image>, used: set<string>, pins: set<string>, now: int,
                              x: Image, reasons: seq<Reason>) {
    && (UnknownOrMixedOwnership in reasons <==> forall g: nat :: !Owns(config.groups, g, x))
    && (DanglingOrDigestOnly in reasons <==> x.tags == [])
    && (MultiTag in reasons <==> |x.tags| >= 2)
    && (ContainerReference in reasons <==> x.id in used)
    && (ProtectedPin in reasons <==>
        x.id in pins || (exists t :: t in x.tags && t in pins) || (exists d :: d in x.digests && d in pins))
    && (UnknownCreated in reasons <==> x.created == None)
    && (FutureCreated in reasons <==> x.created.Some? && x.created.value > now)
    && (CreationGrace in reasons <==>
        x.created.Some? && x.created.value <= now && now < x.created.value + config.grace)
    && (RecentReserve in reasons <==> Reserved(config, images, now, x))
  }

  lemma ReasonsExact(config: Config, images: seq<Image>, used: set<string>, pins: set<string>, now: int,
                     reasons: map<string, seq<Reason>>, x: Image)
    requires x in images && Recorded(config, images, used, pins, now, GroupNames(config.groups), reasons)
    ensures x.id in reasons && ReasonsMean(config, images, used, pins, now, x, reasons[x.id])
  {
    hide GroupOf;
    hide Newer;
    hide Member;
    hide Aliases;
    hide Owns;
    hide Reserved;
    AliasesExact(x, pins);
    GroupOfNamed(config, x);
    NoGroupExact(config, x);
    ReservedGroup(config, images, now, x);
    OwnReasonsMean(config, used, pins, now, x);
    hide OwnReasons;
  }

  lemma OwnReasonsMean(config: Config, used: set<string>, pins: set<string>, now: int, x: Image)
    ensures var reasons := OwnReasons(config, used, pins, now, x);
            && (UnknownOrMixedOwnership in reasons <==> GroupOf(config, x).None?)
            && (DanglingOrDigestOnly in reasons <==> x.tags == []) && (MultiTag in reasons <==> |x.tags| >= 2)
            && (ContainerReference in reasons <==> x.id in used)
            && (ProtectedPin in reasons <==> x.id in pins || !(Aliases(x) !! pins))
            && (UnknownCreated in reasons <==> x.created == None)
            && (FutureCreated in reasons <==> x.created.Some? && x.created.value > now)
            && (CreationGrace in reasons <==>
                x.created.Some? && x.created.value <= now && now < x.created.value + config.grace)
            && RecentReserve !in reasons
  {
    hide GroupOf;
    hide Aliases;
    forall r { OwnReasonsMembers(config, used, pins, now, x, r); }
    hide OwnReasons;
  }

  lemma OwnReasonsMembers(config: Config, used: set<string>, pins: set<string>, now: int, x: Image, r: Reason)
    ensures r in OwnReasons(config, used, pins, now, x) <==>
            || r in When(GroupOf(config, x).None?, UnknownOrMixedOwnership)
            || r in When(x.tags == [], DanglingOrDigestOnly)
            || r in When(|x.tags| > 1, MultiTag)
            || r in When(x.id in used, ContainerReference)
            || r in When(x.id in pins || !(Aliases(x) !! pins), ProtectedPin)
            || r in AgeReasons(config, now, x)
  {
    hide GroupOf;
    hide Aliases;
    hide When;
    hide AgeReasons;
    var a := When(GroupOf(config, x).None?, UnknownOrMixedOwnership);
    var b, c := When(x.tags == [], DanglingOrDigestOnly), When(|x.tags| > 1, MultiTag);
    var d, e := When(x.id in used, ContainerReference), When(x.id in pins || !(Aliases(x) !! pins), ProtectedPin);
    InSum(a, b, r);
    InSum(a + b, c, r);
    InSum(a + b + c, d, r);
    InSum(a + b + c + d, e, r);
    InSum(a + b + c + d + e, AgeReasons(config, now, x), r);
  }

  lemma InSum(a: seq<Reason>, b: seq<Reason>, r: Reason)
    ensures r in a + b <==> r in a || r in b
  {
  }

  lemma NoGroupExact(config: Config, x: Image)
    ensures GroupOf(config, x).None? <==> forall g: nat :: !Owns(config.groups, g, x)
  {
    hide GroupOf;
    if GroupOf(config, x).Some? { GroupExact(config, x, GroupOf(config, x).value); }
    if g: nat :| Owns(config.groups, g, x) { GroupExact(config, x, config.groups[g].name); }
  }

  lemma ReservedGroup(config: Config, images: seq<Image>, now: int, x: Image)
    ensures Reserved(config, images, now, x) ==> GroupOf(config, x).Some?
  {
    hide GroupOf;
  }

  /** `ids` are the ids of all candidates, sorted. */
  ghost predicate CandidateIds(config: Config, images: seq<Image>, used: set<string>, pins: set<string>, now: int,
                               ids: seq<string>) {
    && Sorted(StringLe, ids) && Distinct(ids)
    && forall id :: id in ids <==> exists x: Image :: x.id == id && Candidate(config, AsSet(images), used, pins, now, x)
  }

  /** Once all reserves are recorded, an image is a candidate exactly if nothing is recorded against it. */
  lemma NoReasonsRecorded(config: Config, images: seq<Image>, used: set<string>, pins: set<string>, now: int,
                          reasons: map<string, seq<Reason>>, x: Image)
    requires x in images && Recorded(config, images, used, pins, now, GroupNames(config.groups), reasons)
    ensures x.id in reasons
    ensures Candidate(config, AsSet(images), used, pins, now, x) <==> reasons[x.id] == []
  {
    hide Candidate;
    hide OwnReasons;
    hide GroupOf;
    hide Newer;
    NoReasonsExact(config, images, used, pins, now, x);
    GroupOfNamed(config, x);
  }

  lemma CandidateListed(config: Config, images: seq<Image>, used: set<string>, pins: set<string>, now: int, x: Image)
    requires Candidate(config, AsSet(images), used, pins, now, x)
    ensures x in images
  {
    hide GroupOf;
    hide Newer;
    hide Aliases;
  }

  lemma CandidateIdsExact(config: Config, images: seq<Image>, used: set<string>, pins: set<string>, now: int,
                          reasons: map<string, seq<Reason>>)
    requires UniqueIds(images)
    requires Recorded(config, images, used, pins, now, GroupNames(config.groups), reasons)
    ensures CandidateIds(config, images, used, pins, now, Sort(StringLe, Unreasoned(images, reasons)))
  {
    hide Sort;
    hide StringLe;
    hide Candidate;
    hide Recorded;
    hide Unreasoned;
    RecordedKeys(config, images, used, pins, now, GroupNames(config.groups), reasons);
    var found := Unreasoned(images, reasons);
    var ids := Sort(StringLe, found);
    StringLeOrder();
    SortSorts(StringLe, found);
    SortPermutes(StringLe, found);
    UnreasonedExact(images, reasons);
    UnreasonedDistinct(images, reasons);
    DistinctPermutation(found, ids);
    forall id
      ensures id in ids <==> exists x: Image :: x.id == id && Candidate(config, AsSet(images), used, pins, now, x)
    {
      assert id in ids <==> id in multiset(ids);
      assert id in found <==> id in multiset(found);
      if id in found {
        var x :| x in images && x.id == id && reasons[x.id] == [];
        NoReasonsRecorded(config, images, used, pins, now, reasons, x);
      }
      if x: Image :| x.id == id && Candidate(config, AsSet(images), used, pins, now, x) {
        CandidateListed(config, images, used, pins, now, x);
        NoReasonsRecorded(config, images, used, pins, now, reasons, x);
      }
    }
  }

  /** The reported ids are those of the removable images. */
  lemma ReportedRemovable(config: Config, images: seq<Image>, used: set<string>, pins: set<string>, now: int,
                          ids: seq<string>)
    requires DistinctNames(config.groups) && CandidateIds(config, images, used, pins, now, ids)
    ensures forall id ::
              id in ids <==> exists x: Image :: x.id == id && Removable(config, AsSet(images), used, pins, now, x)
  {
    hide Candidate;
    hide Removable;
    forall x: Image
      ensures Candidate(config, AsSet(images), used, pins, now, x)
              <==> Removable(config, AsSet(images), used, pins, now, x)
    {
      CandidateExact(config, AsSet(images), used, pins, now, x);
    }
  }

  /** The recorded reasons of every image, and the sorted ids of those without any. */
  method Policy(config: Config, images: seq<Image>, used: set<string>, pins: set<string>, now: int)
    returns (reasons: map<string, seq<Reason>>, candidates: seq<string>)
    requires UniqueIds(images) && DistinctNames(config.groups)
    ensures Recorded(config, images, used, pins, now, GroupNames(config.groups), reasons)
    ensures CandidateIds(config, images, used, pins, now, candidates)
    ensures forall x :: x in images ==>
              x.id in reasons && ReasonsMean(config, images, used, pins, now, x, reasons[x.id])
    ensures forall id :: id in candidates <==>
              exists x: Image :: x.id == id && Removable(config, AsSet(images), used, pins, now, x)
  {
    hide ReasonsMean;
    hide Removable;
    hide CandidateIds;
    hide OwnReasons;
    reasons := RecordOwnReasons(config, images, used, pins, now);
    reasons := RecordReserves(config, images, used, pins, now, reasons);
    RecordedKeys(config, images, used, pins, now, GroupNames(config.groups), reasons);
    candidates := Sort(StringLe, Unreasoned(images, reasons));
    CandidateIdsExact(config, images, used, pins, now, reasons);
    ReportedRemovable(config, images, used, pins, now, candidates);
    forall x | x in images ensures x.id in reasons && ReasonsMean(config, images, used, pins, now, x, reasons[x.id]) {
      ReasonsExact(config, images, used, pins, now, reasons, x);
    }
  }
}
