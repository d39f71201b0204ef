/** generate_mock_user_group_data.py: the deterministic parts of the mock
    user/group data generator. The random draws (runtimes, CPU and memory
    choices, which user submits, whether a job is skipped) are parameters. */
module MockGenerator {
  import opened Common

  datatype Profile = ShortSerial | MediumMixed | LongParallel | GpuMixed

  /** The choices each job profile draws CPUs and memory (GB) from. */
  function CpuChoices(p: Profile): seq<nat>
  {
    match p
    case ShortSerial => [1, 2, 4]
    case MediumMixed => [1, 4, 8, 16]
    case LongParallel => [8, 16, 32, 64]
    case GpuMixed => [4, 8, 16]
  }

  function MemoryChoices(p: Profile): seq<nat>
  {
    match p
    case ShortSerial => [4, 8, 16, 32]
    case MediumMixed => [8, 16, 32, 64]
    case LongParallel => [32, 64, 128, 256]
    case GpuMixed => [32, 64, 128]
  }

  /** The fields of a research group that the generator uses; a group
      without a peak season has an empty one. */
  datatype GroupInfo = GroupInfo(name: string, users: nat, profile: Profile, peakSeason: seq<nat>, wasteFactor: real)

  const Groups: seq<GroupInfo> := [
    GroupInfo("physics", 12, LongParallel, [], 0.15),
    GroupInfo("biology", 18, ShortSerial, [3, 9], 0.35),
    GroupInfo("chemistry", 10, MediumMixed, [], 0.45),
    GroupInfo("engineering", 15, ShortSerial, [4, 11], 0.55),
    GroupInfo("ml_lab", 8, GpuMixed, [], 0.25),
    GroupInfo("astronomy", 6, LongParallel, [], 0.10),
    GroupInfo("geoscience", 7, MediumMixed, [6, 7, 8], 0.40)
  ]

  // ---------------------------------------------------------------------
  // Users

  datatype User = User(
    userId: string,
    username: string,
    group: string,
    isPowerUser: bool,
    isWasteful: bool,
    jobFrequency: nat,
    efficiencyModifier: real)

  /** The first 20% of a group's users (i < 0.2n) are power users. */
  predicate IsPowerUser(i: nat, n: nat)
  {
    i as real < n as real * 0.2
  }

  /** The last 20% (i >= 0.8n) are wasteful. */
  predicate IsWasteful(i: nat, n: nat)
  {
    i as real >= n as real * 0.8
  }

  function UserIdText(id: nat): string
  {
    "user_" + ZeroPad(id, 4)
  }

  /** The i-th user (from 0) of a group, with running id `id`. */
  function MakeUser(info: GroupInfo, i: nat, id: nat): (u: User)
    requires i < info.users
    ensures !(u.isPowerUser && u.isWasteful)
    ensures u.jobFrequency == 1000 || u.jobFrequency == 200
    ensures u.efficiencyModifier == 0.5 || u.efficiencyModifier == 1.0
  {
    var power := IsPowerUser(i, info.users);
    var wasteful := IsWasteful(i, info.users);
    User(UserIdText(id), info.name + "_user" + ZeroPad(i + 1, 2), info.name, power, wasteful,
         if power then 1000 else 200, if wasteful then 0.5 else 1.0)
  }

  /** The first `n` users of a group whose first running id is `base`. */
  function GroupUsers(info: GroupInfo, base: nat, n: nat): (us: seq<User>)
    requires n <= info.users
    ensures |us| == n
  {
    if n == 0 then [] else GroupUsers(info, base, n - 1) + [MakeUser(info, n - 1, base + n - 1)]
  }

  function TotalUsers(groups: seq<GroupInfo>): nat
  {
    if groups == [] then 0 else TotalUsers(groups[..|groups| - 1]) + groups[|groups| - 1].users
  }

  /** All groups' users, group after group, with ids counting from 1. */
  function UsersOf(groups: seq<GroupInfo>): (us: seq<User>)
    ensures |us| == TotalUsers(groups)
  {
    if groups == [] then []
    else
      var init := groups[..|groups| - 1];
      var g := groups[|groups| - 1];
      UsersOf(init) + GroupUsers(g, 1 + TotalUsers(init), g.users)
  }

  /** One more group appends its users after the earlier groups'. */
  lemma UsersOfSnoc(groups: seq<GroupInfo>, gi: nat)
    requires gi < |groups|
    ensures UsersOf(groups[..gi + 1])
         == UsersOf(groups[..gi]) + GroupUsers(groups[gi], 1 + TotalUsers(groups[..gi]), groups[gi].users)
  {
    assert groups[..gi + 1][..gi] == groups[..gi];
  }

  /** `generate_users`. */
  method GenerateUsers(groups: seq<GroupInfo>) returns (users: seq<User>)
    ensures users == UsersOf(groups)
  {
    users := [];
    var userId := 1;
    for gi := 0 to |groups|
      invariant users == UsersOf(groups[..gi])
      invariant userId == 1 + |users|
    {
      UsersOfSnoc(groups, gi);
      users, userId := AddGroupUsers(groups[gi], users, userId);
    }
    assert groups[..|groups|] == groups;
  }

  /** The inner loop of `generate_users`: one group's users, numbered on
      from `userId`. */
  method AddGroupUsers(info: GroupInfo, users: seq<User>, userId: nat) returns (users': seq<User>, userId': nat)
    ensures users' == users + GroupUsers(info, userId, info.users)
    ensures userId' == userId + info.users
  {
    users', userId' := users, userId;
    for i := 0 to info.users
      invariant users' == users + GroupUsers(info, userId, i)
      invariant userId' == userId + i
    {
      users' := users' + [MakeUser(info, i, userId')];
      userId' := userId' + 1;
    }
  }

  /** The k-th user of a group comes from `MakeUser` with the k-th id. */
  lemma {:induction false} GroupUsersAt(info: GroupInfo, base: nat, n: nat, k: nat)
    requires n <= info.users && k < n
    ensures GroupUsers(info, base, n)[k] == MakeUser(info, k, base + k)
  {
    if k < n - 1 {
      GroupUsersAt(info, base, n - 1, k);
    }
  }

  /** Users are numbered consecutively from user_0001 in group order. */
  lemma {:induction false} UsersNumbered(groups: seq<GroupInfo>, k: nat)
    requires k < |UsersOf(groups)|
    ensures UsersOf(groups)[k].userId == UserIdText(k + 1)
  {
    var init := groups[..|groups| - 1];
    var g := groups[|groups| - 1];
    var base := 1 + TotalUsers(init);
    if k < |UsersOf(init)| {
      UsersNumbered(init, k);
    } else {
      var i := k - |UsersOf(init)|;
      GroupUsersAt(g, base, g.users, i);
      assert UsersOf(groups)[k] == MakeUser(g, i, k + 1);
    }
  }

  /** A prefix followed by a zero-padded number determines the number. */
  lemma PaddedInjective(prefix: string, a: nat, b: nat, width: nat)
    requires prefix + ZeroPad(a, width) == prefix + ZeroPad(b, width)
    ensures a == b
  {
    assert (prefix + ZeroPad(a, width))[|prefix|..] == ZeroPad(a, width);
    assert (prefix + ZeroPad(b, width))[|prefix|..] == ZeroPad(b, width);
    ZeroPadValue(a, width);
    ZeroPadValue(b, width);
  }

  /** The generator's group table yields 76 users. */
  lemma SeventySixUsers()
    ensures |UsersOf(Groups)| == 76
  {
    assert TotalUsers(Groups[..1]) == 12;
    assert Groups[..2][..1] == Groups[..1];
    assert TotalUsers(Groups[..2]) == 30;
    assert Groups[..3][..2] == Groups[..2];
    assert TotalUsers(Groups[..3]) == 40;
    assert Groups[..4][..3] == Groups[..3];
    assert TotalUsers(Groups[..4]) == 55;
    assert Groups[..5][..4] == Groups[..4];
    assert TotalUsers(Groups[..5]) == 63;
    assert Groups[..6][..5] == Groups[..5];
    assert TotalUsers(Groups[..6]) == 69;
    assert Groups[..7][..6] == Groups[..6];
    assert Groups[..7] == Groups;
  }

  /** No two users share an id. */
  lemma UserIdsDistinct(groups: seq<GroupInfo>, a: nat, b: nat)
    requires a < b < |UsersOf(groups)|
    ensures UsersOf(groups)[a].userId != UsersOf(groups)[b].userId
  {
    UsersNumbered(groups, a);
    UsersNumbered(groups, b);
    if UserIdText(a + 1) == UserIdText(b + 1) {
      PaddedInjective("user_", a + 1, b + 1, 4);
    }
  }

  /** Within a group the names are distinct. */
  lemma UsernamesDistinct(info: GroupInfo, i: nat, j: nat, ida: nat, idb: nat)
    requires i < j < info.users
    ensures MakeUser(info, i, ida).username != MakeUser(info, j, idb).username
  {
    if MakeUser(info, i, ida).username == MakeUser(info, j, idb).username {
      PaddedInjective(info.name + "_user", i + 1, j + 1, 2);
    }
  }

  /** The power users are a prefix and the wasteful users a suffix of each
      group; a group of at least 5 users has at least one of each. */
  lemma UserFlagsShape(n: nat, i: nat, j: nat)
    requires i <= j < n
    ensures IsPowerUser(j, n) ==> IsPowerUser(i, n)
    ensures IsWasteful(i, n) ==> IsWasteful(j, n)
    ensures n >= 5 ==> IsPowerUser(0, n) && IsWasteful(n - 1, n)
  {
  }

  // ---------------------------------------------------------------------
  // Jobs

  /** Jobs a day gets: the drawn base count, cut to 40% on a weekend
      (weekday 5 or 6), truncated as `int()` does. */
  function DayJobs(base: nat, weekday: nat): (n: nat)
    ensures weekday < 5 ==> n == base
    ensures n <= base
  {
    if weekday >= 5 then (base as real * 0.4).Floor else base
  }

  /** 2.5 in one of the group's peak months, otherwise 1. */
  function SeasonalMultiplier(info: GroupInfo, month: nat): real
  {
    if |info.peakSeason| > 0 && month in info.peakSeason then 2.5 else 1.0
  }

  /** A drawn job is kept unless the uniform draw exceeds this bound. */
  function KeepBound(u: User, multiplier: real): real
  {
    u.jobFrequency as real / 2000.0 * multiplier
  }

  /** Power users in a peak month are never skipped; an ordinary user
      outside one keeps a draw with probability 0.1. */
  lemma KeepBoundRules(info: GroupInfo, i: nat, id: nat, month: nat)
    requires i < info.users
    ensures var u := MakeUser(info, i, id);
      && (u.isPowerUser && month in info.peakSeason ==> KeepBound(u, SeasonalMultiplier(info, month)) > 1.0)
      && (!u.isPowerUser && month !in info.peakSeason ==> KeepBound(u, SeasonalMultiplier(info, month)) == 0.1)
  {
  }

  /** Runtime drawn from the profile, kept within [0.01 h, 168 h]. */
  function ClampRuntime(x: real): (r: real)
    ensures 0.01 <= r <= 168.0
    ensures 0.01 <= x <= 168.0 ==> r == x
  {
    Clip(x, 0.01, 168.0)
  }

  /** Over-request factor: 1 + waste factor / efficiency modifier, times
      1.5 for wasteful users. */
  function WasteMultiplier(info: GroupInfo, u: User): real
    requires u.efficiencyModifier > 0.0
  {
    var m := 1.0 + info.wasteFactor / u.efficiencyModifier;
    if u.isWasteful then m * 1.5 else m
  }

  lemma WasteMultiplierAtLeastOne(info: GroupInfo, u: User)
    requires u.efficiencyModifier > 0.0 && info.wasteFactor >= 0.0
    ensures WasteMultiplier(info, u) >= 1.0
  {
    var q := info.wasteFactor / u.efficiencyModifier;
    assert q * u.efficiencyModifier == info.wasteFactor;
    assert q < 0.0 ==> q * u.efficiencyModifier < 0.0;
  }

  /** `int(needed * mult)` for a non-negative product. */
  function Requested(needed: nat, mult: real): int
  {
    (needed as real * mult).Floor
  }

  lemma RequestedAtLeastNeeded(needed: nat, mult: real)
    requires mult >= 1.0
    ensures Requested(needed, mult) >= needed
  {
    assert needed as real * mult >= needed as real * 1.0;
  }

  /** The "MAX_INT" memory request of some wasteful users. */
  const MaxIntMemory: int := 9999

  datatype Job = Job(
    user: string,
    group: string,
    cpusReq: int,
    cpusActual: nat,
    memReqGb: int,
    memActualGb: nat,
    runtimeHours: real)

  /** One generated job from its random draws; `maxIntMemory` is the 30%
      draw that replaces a wasteful user's memory request. */
  function MakeJob(info: GroupInfo, u: User, runtimeDraw: real, cpusNeeded: nat, memoryNeeded: nat, maxIntMemory: bool): Job
    requires u.efficiencyModifier > 0.0
  {
    var mult := WasteMultiplier(info, u);
    Job(u.username, u.group, Requested(cpusNeeded, mult), cpusNeeded,
        if u.isWasteful && maxIntMemory then MaxIntMemory else Requested(memoryNeeded, mult),
        memoryNeeded, ClampRuntime(runtimeDraw))
  }

  // Derived metrics

  function CpuEfficiency(j: Job): real
    requires j.cpusReq > 0
  {
    j.cpusActual as real / j.cpusReq as real
  }

  /** A 9999 GB request counts as 256 GB. */
  function MemoryDenominator(j: Job): int
  {
    if j.memReqGb == MaxIntMemory then 256 else j.memReqGb
  }

  function MemEfficiency(j: Job): real
    requires MemoryDenominator(j) > 0
  {
    j.memActualGb as real / MemoryDenominator(j) as real
  }

  /** $0.10 per CPU-hour on premises, $0.02 in the cloud; waste is the
      unused requested CPUs at the on-premises rate. */
  function CostOnPrem(j: Job): real
  {
    j.cpusReq as real * j.runtimeHours * 0.10
  }

  function CostCloud(j: Job): real
  {
    j.cpusReq as real * j.runtimeHours * 0.02
  }

  function CostWaste(j: Job): real
  {
    (j.cpusReq - j.cpusActual) as real * j.runtimeHours * 0.10
  }

  /** Every job the generator can produce from a user of its group asks for
      at least what it uses: both efficiencies lie in (0, 1], the waste cost
      lies between 0 and the on-premises cost, and the cloud cost is a fifth
      of it. */
  lemma GeneratedJobFacts(info: GroupInfo, i: nat, id: nat, runtimeDraw: real,
                          cpusNeeded: nat, memoryNeeded: nat, maxIntMemory: bool)
    requires i < info.users && info.wasteFactor >= 0.0
    requires cpusNeeded in CpuChoices(info.profile) && memoryNeeded in MemoryChoices(info.profile)
    ensures var j := MakeJob(info, MakeUser(info, i, id), runtimeDraw, cpusNeeded, memoryNeeded, maxIntMemory);
      && 0.01 <= j.runtimeHours <= 168.0
      && j.cpusReq >= j.cpusActual >= 1
      && MemoryDenominator(j) >= j.memActualGb >= 4
      && 0.0 < CpuEfficiency(j) <= 1.0
      && 0.0 < MemEfficiency(j) <= 1.0
      && 0.0 <= CostWaste(j) <= CostOnPrem(j)
      && CostCloud(j) * 5.0 == CostOnPrem(j)
  {
    var u := MakeUser(info, i, id);
    ChoiceBounds(info.profile, cpusNeeded, memoryNeeded);
    RequestsCoverUse(info, u, runtimeDraw, cpusNeeded, memoryNeeded, maxIntMemory);
    JobMetricFacts(MakeJob(info, u, runtimeDraw, cpusNeeded, memoryNeeded, maxIntMemory));
  }

  /** Requests are at least the usage, and a 9999 GB request still counts
      as at least the largest memory any profile draws. */
  lemma RequestsCoverUse(info: GroupInfo, u: User, runtimeDraw: real,
                         cpusNeeded: nat, memoryNeeded: nat, maxIntMemory: bool)
    requires u.efficiencyModifier > 0.0 && info.wasteFactor >= 0.0
    requires 1 <= cpusNeeded && 4 <= memoryNeeded <= 256
    ensures var j := MakeJob(info, u, runtimeDraw, cpusNeeded, memoryNeeded, maxIntMemory);
      && 0.01 <= j.runtimeHours <= 168.0
      && j.cpusReq >= j.cpusActual >= 1
      && MemoryDenominator(j) >= j.memActualGb >= 4
  {
    var mult := WasteMultiplier(info, u);
    WasteMultiplierAtLeastOne(info, u);
    RequestedAtLeastNeeded(cpusNeeded, mult);
    RequestedAtLeastNeeded(memoryNeeded, mult);
  }

  /** Efficiencies and costs of a job that requests at least what it uses. */
  lemma JobMetricFacts(j: Job)
    requires j.runtimeHours >= 0.0
    requires j.cpusReq >= j.cpusActual >= 1
    requires MemoryDenominator(j) >= j.memActualGb >= 4
    ensures 0.0 < CpuEfficiency(j) <= 1.0
    ensures 0.0 < MemEfficiency(j) <= 1.0
    ensures 0.0 <= CostWaste(j) <= CostOnPrem(j)
    ensures CostCloud(j) * 5.0 == CostOnPrem(j)
  {
    FractionInUnit(j.cpusActual, j.cpusReq);
    FractionInUnit(j.memActualGb, MemoryDenominator(j));
    WasteWithinOnPrem(j.cpusReq, j.cpusActual, j.runtimeHours);
  }

  lemma ChoiceBounds(p: Profile, cpus: nat, memory: nat)
    requires cpus in CpuChoices(p) && memory in MemoryChoices(p)
    ensures 1 <= cpus && 4 <= memory <= 256
  {
  }

  lemma FractionInUnit(a: nat, b: int)
    requires 0 < a <= b
    ensures 0.0 < a as real / b as real <= 1.0
  {
    var q := a as real / b as real;
    assert q * b as real == a as real;
    assert q > 1.0 ==> q * b as real > b as real;
    assert q <= 0.0 ==> q * b as real <= 0.0;
  }

  lemma WasteWithinOnPrem(req: int, actual: nat, hours: real)
    requires req >= actual && hours >= 0.0
    ensures 0.0 <= (req - actual) as real * hours * 0.10 <= req as real * hours * 0.10
  {
    assert (req - actual) as real * hours <= req as real * hours;
  }
}
