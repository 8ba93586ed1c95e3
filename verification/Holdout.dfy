/**
 The case loop of the Gate1 holdout manifest and the check of evaluation rows against it
 (bench/gate1_holdout.py).
 */
module Holdout {

  import opened Wrappers

  datatype Case = Case(caseId: string, split: string, role: string, attackType: string, groupSource: string,
                       payload: string, group: string, oracle: string)

  /** The two digests that must not cross splits. */
  datatype Field = Payload | Group

  datatype Fault = MissingId | DuplicateId(id: string) | BadField(id: string) | Malformed(id: string)
                 | CrossesSplits(field: Field, digest: string) | TooFew(split: string) | NotIndependent

  datatype Limits = Limits(attacks: int, negatives: int, perType: int, independent: bool)

  const CALIBRATION := "calibration"
  const HOLDOUT := "holdout"

  predicate IsHex(c: char) { '0' <= c <= '9' || 'a' <= c <= 'f' }

  /** ^sha256:[0-9a-f]{64}$ */
  predicate IsDigest(d: string) {
    |d| == 71 && d[..7] == "sha256:" && forall i :: 7 <= i < 71 ==> IsHex(d[i])
  }

  function Digest(c: Case, field: Field): string {
    match field case Payload => c.payload case Group => c.group
  }

  predicate IsSplit(s: string) { s == CALIBRATION || s == HOLDOUT }

  /** The checks of one case that look at nothing else. */
  predicate FieldsOk(c: Case, types: seq<string>) {
    && IsSplit(c.split)
    && (c.role == "attack" || c.role == "negative_control")
    && (c.role == "attack" ==> c.attackType in types)
    && (c.role == "negative_control" ==> c.attackType == "")
    && (c.groupSource == "explicit" || c.groupSource == "derived_exact_payload")
  }

  /** How many of the first k cases have the split and role, and the attack type if one is asked for. */
  function Tally(cases: seq<Case>, k: nat, split: string, role: string, attackType: Option<string>): nat
    requires k <= |cases|
  {
    if k == 0 then 0
    else
      var c := cases[k - 1];
      Tally(cases, k - 1, split, role, attackType) +
      if c.split == split && c.role == role && (attackType.Some? ==> c.attackType == attackType.value) then 1 else 0
  }

  // ---------------------------------------------------------------- what a valid manifest is

  ghost predicate DistinctIds(cases: seq<Case>, k: nat)
    requires k <= |cases|
  {
    forall i, j :: 0 <= i < j < k ==> cases[i].caseId != cases[j].caseId
  }

  /** No digest of the field occurs in two splits. */
  ghost predicate OneSplitEach(cases: seq<Case>, k: nat, field: Field)
    requires k <= |cases|
  {
    forall i, j :: 0 <= i < j < k && Digest(cases[i], field) == Digest(cases[j], field) ==>
        cases[i].split == cases[j].split
  }

  /** Case k against those before it. */
  ghost predicate NewId(cases: seq<Case>, k: nat)
    requires k < |cases|
  {
    forall i :: 0 <= i < k ==> cases[i].caseId != cases[k].caseId
  }

  ghost predicate NoCrossing(cases: seq<Case>, k: nat, field: Field)
    requires k < |cases|
  {
    forall i :: 0 <= i < k && Digest(cases[i], field) == Digest(cases[k], field) ==> cases[i].split == cases[k].split
  }

  predicate CaseOk(c: Case, types: seq<string>) {
    c.caseId != "" && FieldsOk(c, types) && IsDigest(c.payload) && IsDigest(c.group) && IsDigest(c.oracle)
  }

  /** The first k cases are in order, and each agrees with those before it. */
  ghost predicate PrefixSound(cases: seq<Case>, k: nat, types: seq<string>)
    requires k <= |cases|
  {
    k == 0 ||
    (&& PrefixSound(cases, k - 1, types) && CaseOk(cases[k - 1], types)
     && NewId(cases, k - 1) && NoCrossing(cases, k - 1, Payload) && NoCrossing(cases, k - 1, Group))
  }

  /** What a sound prefix is, said of all pairs of cases. */
  lemma {:induction false} SoundMeans(cases: seq<Case>, k: nat, types: seq<string>)
    requires k <= |cases|
    ensures PrefixSound(cases, k, types) <==>
            && (forall i :: 0 <= i < k ==> CaseOk(cases[i], types))
            && DistinctIds(cases, k) && OneSplitEach(cases, k, Payload) && OneSplitEach(cases, k, Group)
  {
    if k > 0 {
      SoundMeans(cases, k - 1, types);
      PairsStep(cases, k - 1);
      SplitsStep(cases, k - 1, Payload);
      SplitsStep(cases, k - 1, Group);
    }
  }

  lemma PairsStep(cases: seq<Case>, k: nat)
    requires k < |cases|
    ensures DistinctIds(cases, k + 1) <==> DistinctIds(cases, k) && NewId(cases, k)
  {
  }

  lemma SplitsStep(cases: seq<Case>, k: nat, field: Field)
    requires k < |cases|
    ensures OneSplitEach(cases, k + 1, field) <==> OneSplitEach(cases, k, field) && NoCrossing(cases, k, field)
  {
  }

  predicate EnoughIn(cases: seq<Case>, split: string, limits: Limits, types: seq<string>) {
    && Tally(cases, |cases|, split, "attack", None) >= limits.attacks
    && Tally(cases, |cases|, split, "negative_control", None) >= limits.negatives
    && (limits.perType != 0 ==> forall t <- types :: Tally(cases, |cases|, split, "attack", Some(t)) >= limits.perType)
  }

  ghost predicate Sound(cases: seq<Case>, limits: Limits, types: seq<string>, attested: bool) {
    && PrefixSound(cases, |cases|, types)
    && EnoughIn(cases, CALIBRATION, limits, types) && EnoughIn(cases, HOLDOUT, limits, types)
    && (limits.independent ==> attested && DerivedGroups(cases, |cases|) == 0)
  }

  // ---------------------------------------------------------------- the loop

  /** Each digest seen so far, with the split of a case that has it. */
  ghost predicate Recorded(m: map<string, string>, cases: seq<Case>, k: nat, field: Field)
    requires k <= |cases|
  {
    && (forall i :: 0 <= i < k && IsDigest(Digest(cases[i], field)) ==> Digest(cases[i], field) in m)
    && (forall d <- m :: exists i :: 0 <= i < k && Digest(cases[i], field) == d && cases[i].split == m[d])
  }

  /** `split_map.setdefault(digest, split)`. */
  function Assigned(m: map<string, string>, c: Case, field: Field): map<string, string> {
    var d := Digest(c, field);
    if !IsDigest(d) || d in m then m else m[d := c.split]
  }

  function AssignFaults(m: map<string, string>, c: Case, field: Field): seq<Fault> {
    var d := Digest(c, field);
    if !IsDigest(d) then [Malformed(c.caseId)]
    else if Assigned(m, c, field)[d] != c.split then [CrossesSplits(field, d)]
    else []
  }

  lemma RecordedStep(m: map<string, string>, cases: seq<Case>, k: nat, field: Field)
    requires k < |cases| && Recorded(m, cases, k, field)
    ensures Recorded(Assigned(m, cases[k], field), cases, k + 1, field)
  {
    var c, next := cases[k], Assigned(m, cases[k], field);
    forall d <- next ensures exists i :: 0 <= i < k + 1 && Digest(cases[i], field) == d && cases[i].split == next[d] {
      if d in m {
        var i :| 0 <= i < k && Digest(cases[i], field) == d && cases[i].split == m[d];
      } else {
        assert Digest(cases[k], field) == d;
      }
    }
  }

  /** The split on record is that of every earlier case with the digest. */
  lemma RecordIsShared(m: map<string, string>, cases: seq<Case>, k: nat, field: Field, j: nat)
    requires j < k <= |cases| && Recorded(m, cases, k, field) && OneSplitEach(cases, k, field)
    requires Digest(cases[j], field) in m
    ensures cases[j].split == m[Digest(cases[j], field)]
  {
    var d := Digest(cases[j], field);
    var i :| 0 <= i < k && Digest(cases[i], field) == d && cases[i].split == m[d];
    assert i < j || j <= i;
  }

  lemma CrossingFound(m: map<string, string>, cases: seq<Case>, k: nat, field: Field)
    requires k < |cases| && Recorded(m, cases, k, field)
    requires (forall i :: 0 <= i < k ==> IsDigest(Digest(cases[i], field))) && OneSplitEach(cases, k, field)
    ensures AssignFaults(m, cases[k], field) == [] <==> IsDigest(Digest(cases[k], field)) && NoCrossing(cases, k, field)
  {
    var d := Digest(cases[k], field);
    forall j | 0 <= j < k && Digest(cases[j], field) == d ensures d in m && cases[j].split == m[d] {
      RecordIsShared(m, cases, k, field, j);
    }
    if d in m {
      var i :| 0 <= i < k && Digest(cases[i], field) == d && cases[i].split == m[d];
    }
  }

  /** The faults of one case, given what is remembered of those before it. */
  function CaseFaults(c: Case, seen: set<string>, payloads: map<string, string>, groups: map<string, string>,
                      types: seq<string>)
    : seq<Fault>
  {
    (if c.caseId == "" then [MissingId] else if c.caseId in seen then [DuplicateId(c.caseId)] else [])
    + (if FieldsOk(c, types) then [] else [BadField(c.caseId)])
    + AssignFaults(payloads, c, Payload) + AssignFaults(groups, c, Group)
    + (if IsDigest(c.oracle) then [] else [Malformed(c.caseId)])
  }

  lemma NoFaults(c: Case, seen: set<string>, payloads: map<string, string>, groups: map<string, string>,
                 types: seq<string>)
    ensures CaseFaults(c, seen, payloads, groups, types) == [] <==>
            && c.caseId != "" && c.caseId !in seen && FieldsOk(c, types) && IsDigest(c.oracle)
            && AssignFaults(payloads, c, Payload) == [] && AssignFaults(groups, c, Group) == []
  {
  }

  ghost predicate Seen(seen: set<string>, cases: seq<Case>, k: nat)
    requires k <= |cases|
  {
    && (forall i :: 0 <= i < k ==> cases[i].caseId in seen)
    && (forall id <- seen :: exists i :: 0 <= i < k && cases[i].caseId == id)
  }

  lemma NewIdIsUnseen(cases: seq<Case>, k: nat, seen: set<string>)
    requires k < |cases| && Seen(seen, cases, k)
    ensures NewId(cases, k) <==> cases[k].caseId !in seen
  {
  }

  lemma SoundDigests(cases: seq<Case>, k: nat, types: seq<string>, field: Field)
    requires k <= |cases| && PrefixSound(cases, k, types)
    ensures (forall i :: 0 <= i < k ==> IsDigest(Digest(cases[i], field))) && OneSplitEach(cases, k, field)
  {
    SoundMeans(cases, k, types);
    forall i | 0 <= i < k ensures IsDigest(Digest(cases[i], field)) { assert CaseOk(cases[i], types); }
  }

  lemma FieldStep(cases: seq<Case>, k: nat, m: map<string, string>, types: seq<string>, field: Field)
    requires k < |cases| && Recorded(m, cases, k, field) && PrefixSound(cases, k, types)
    ensures AssignFaults(m, cases[k], field) == [] <==> IsDigest(Digest(cases[k], field)) && NoCrossing(cases, k, field)
  {
    SoundDigests(cases, k, types, field);
    CrossingFound(m, cases, k, field);
  }

  lemma FaultsMeanUnsound(cases: seq<Case>, k: nat, seen: set<string>, payloads: map<string, string>,
                          groups: map<string, string>,
                          types: seq<string>)
    requires k < |cases| && Seen(seen, cases, k) && Recorded(payloads, cases, k, Payload)
             && Recorded(groups, cases, k, Group)
    requires PrefixSound(cases, k, types)
    ensures CaseFaults(cases[k], seen, payloads, groups, types) == [] <==> PrefixSound(cases, k + 1, types)
  {
    NoFaults(cases[k], seen, payloads, groups, types);
    FieldStep(cases, k, payloads, types, Payload);
    FieldStep(cases, k, groups, types, Group);
    NewIdIsUnseen(cases, k, seen);
  }

  datatype Memory = Memory(seen: set<string>, payloads: map<string, string>, groups: map<string, string>)

  lemma SeenStep(seen: set<string>, cases: seq<Case>, k: nat)
    requires k < |cases| && Seen(seen, cases, k)
    ensures Seen(seen + {cases[k].caseId}, cases, k + 1)
  {
    forall id <- seen + {cases[k].caseId} ensures exists i :: 0 <= i < k + 1 && cases[i].caseId == id {
      if id != cases[k].caseId { var i :| 0 <= i < k && cases[i].caseId == id; }
      else { assert cases[k].caseId == id; }
    }
  }

  function Remembered(m: Memory, c: Case): Memory {
    Memory(m.seen + {c.caseId}, Assigned(m.payloads, c, Payload), Assigned(m.groups, c, Group))
  }

  ghost function MemoryOf(cases: seq<Case>, k: nat): Memory
    requires k <= |cases|
  {
    if k == 0 then Memory({}, map[], map[]) else Remembered(MemoryOf(cases, k - 1), cases[k - 1])
  }

  function SplitsOf(m: Memory, field: Field): map<string, string> {
    match field case Payload => m.payloads case Group => m.groups
  }

  lemma SeenNext(m: Memory, cases: seq<Case>, k: nat, next: Memory)
    requires k < |cases| && Seen(m.seen, cases, k) && next == Remembered(m, cases[k])
    ensures Seen(next.seen, cases, k + 1)
  {
    SeenStep(m.seen, cases, k);
  }

  lemma RecordedNext(m: Memory, cases: seq<Case>, k: nat, field: Field, next: Memory)
    requires k < |cases| && Recorded(SplitsOf(m, field), cases, k, field) && next == Remembered(m, cases[k])
    ensures Recorded(SplitsOf(next, field), cases, k + 1, field)
  {
    RecordedStep(SplitsOf(m, field), cases, k, field);
  }

  lemma {:induction false} MemorySeen(cases: seq<Case>, k: nat, m: Memory)
    requires k <= |cases| && m == MemoryOf(cases, k)
    ensures Seen(m.seen, cases, k)
  {
    if k > 0 {
      var earlier := MemoryOf(cases, k - 1);
      MemorySeen(cases, k - 1, earlier);
      SeenNext(earlier, cases, k - 1, m);
    }
  }

  lemma {:induction false} MemoryRecorded(cases: seq<Case>, k: nat, field: Field, m: Memory)
    requires k <= |cases| && m == MemoryOf(cases, k)
    ensures Recorded(SplitsOf(m, field), cases, k, field)
  {
    if k > 0 {
      var earlier := MemoryOf(cases, k - 1);
      MemoryRecorded(cases, k - 1, field, earlier);
      RecordedNext(earlier, cases, k - 1, field, m);
    }
  }

  /** What is wrong with one case. */
  method CheckCase(c: Case, memory: Memory, types: seq<string>, ghost cases: seq<Case>, ghost k: nat)
    returns (found: seq<Fault>)
    requires k < |cases| && cases[k] == c && memory == MemoryOf(cases, k)
    ensures PrefixSound(cases, k, types) ==> (found == [] <==> PrefixSound(cases, k + 1, types))
  {
    MemorySeen(cases, k, memory);
    MemoryRecorded(cases, k, Payload, memory);
    MemoryRecorded(cases, k, Group, memory);
    if PrefixSound(cases, k, types) { FaultsMeanUnsound(cases, k, memory.seen, memory.payloads, memory.groups, types); }
    found := CaseFaults(c, memory.seen, memory.payloads, memory.groups, types);
  }

  /** Cases whose semantic group is only their payload's digest. */
  function DerivedGroups(cases: seq<Case>, k: nat): nat
    requires k <= |cases|
  {
    if k == 0 then 0
    else DerivedGroups(cases, k - 1) + if cases[k - 1].groupSource == "derived_exact_payload" then 1 else 0
  }

  /** The loop over the cases reports nothing exactly on sound ones. */
  method CheckCases(cases: seq<Case>, types: seq<string>) returns (faults: seq<Fault>, derived: nat)
    ensures faults == [] <==> PrefixSound(cases, |cases|, types)
    ensures derived == DerivedGroups(cases, |cases|)
  {
    var memory := Memory({}, map[], map[]);
    faults, derived := [], 0;
    for k := 0 to |cases|
      invariant memory == MemoryOf(cases, k)
      invariant faults == [] <==> PrefixSound(cases, k, types)
      invariant derived == DerivedGroups(cases, k)
    {
      var found := CheckCase(cases[k], memory, types, cases, k);
      faults := faults + found;
      memory := Remembered(memory, cases[k]);
      if cases[k].groupSource == "derived_exact_payload" { derived := derived + 1; }
    }
  }

  // ---------------------------------------------------------------- the verdict

  /** A manifest's cases are reported valid exactly when they are sound. */
  method ValidateCases(cases: seq<Case>, limits: Limits, types: seq<string>, attested: bool)
    returns (faults: seq<Fault>, independent: bool)
    ensures faults == [] <==> Sound(cases, limits, types, attested)
    ensures independent <==> attested && DerivedGroups(cases, |cases|) == 0
  {
    var derived;
    faults, derived := CheckCases(cases, types);
    if !EnoughIn(cases, CALIBRATION, limits, types) { faults := faults + [TooFew(CALIBRATION)]; }
    if !EnoughIn(cases, HOLDOUT, limits, types) { faults := faults + [TooFew(HOLDOUT)]; }
    if limits.independent && !(attested && derived == 0) { faults := faults + [NotIndependent]; }
    return faults, attested && derived == 0;
  }

  /** `sha256:` and 64 hexadecimal digits, small letters. */
  predicate IsTagged(d: string) {
    |d| == 7 + 64 && d == "sha256:" + d[7..] && forall c <- d[7..] :: c in "0123456789abcdef"
  }

  lemma DigestExactly(d: string)
    ensures IsDigest(d) <==> IsTagged(d)
  {
    forall c: char ensures IsHex(c) <==> c in "0123456789abcdef" { HexExactly(c); }
    if |d| == 71 {
      assert d[..7] + d[7..] == d;
      assert d[..7] == "sha256:" <==> d == "sha256:" + d[7..] by { assert ("sha256:" + d[7..])[..7] == "sha256:"; }
      assert (forall i :: 7 <= i < 71 ==> IsHex(d[i])) <==> (forall c <- d[7..] :: IsHex(c)) by { HexFrom(d); }
    }
  }

  lemma HexExactly(c: char)
    ensures IsHex(c) <==> c in "0123456789abcdef"
  {
    var hex := "0123456789abcdef";
    assert hex[0] == '0' && hex[1] == '1' && hex[2] == '2' && hex[3] == '3' && hex[4] == '4' && hex[5] == '5';
    assert hex[6] == '6' && hex[7] == '7' && hex[8] == '8' && hex[9] == '9' && hex[10] == 'a' && hex[11] == 'b';
    assert hex[12] == 'c' && hex[13] == 'd' && hex[14] == 'e' && hex[15] == 'f';
  }

  lemma HexFrom(d: string)
    requires |d| == 71
    ensures (forall i :: 7 <= i < 71 ==> IsHex(d[i])) <==> (forall c <- d[7..] :: IsHex(c))
  {
    if forall c <- d[7..] :: IsHex(c) {
      forall i | 7 <= i < 71 ensures IsHex(d[i]) { assert d[7..][i - 7] == d[i]; }
    }
  }

  /** A case in order, taken by itself. */
  predicate InOrder(c: Case, types: seq<string>) {
    && c.caseId != "" && (c.split == "calibration" || c.split == "holdout")
    && (|| (c.role == "attack" && c.attackType in types)
        || (c.role == "negative_control" && c.attackType == ""))
    && (c.groupSource == "explicit" || c.groupSource == "derived_exact_payload")
    && IsTagged(c.payload) && IsTagged(c.group) && IsTagged(c.oracle)
  }

  lemma CaseExactly(c: Case, types: seq<string>)
    ensures CaseOk(c, types) <==> InOrder(c, types)
  {
    DigestExactly(c.payload);
    DigestExactly(c.group);
    DigestExactly(c.oracle);
  }

  /** The places among the first k of cases with the split and role, and the attack type if one is asked for. */
  function Places(cases: seq<Case>, k: nat, split: string, role: string, attackType: Option<string>): set<nat>
    requires k <= |cases|
  {
    set i: nat | i < k && cases[i].split == split && cases[i].role == role
                 && (attackType.Some? ==> cases[i].attackType == attackType.value)
  }

  lemma {:induction false} TallyExactly(cases: seq<Case>, k: nat, split: string, role: string,
                                        attackType: Option<string>)
    requires k <= |cases|
    ensures Tally(cases, k, split, role, attackType) == |Places(cases, k, split, role, attackType)|
  {
    if k > 0 {
      TallyExactly(cases, k - 1, split, role, attackType);
      PlacesNext(cases, k - 1, split, role, attackType);
    }
  }

  lemma PlacesNext(cases: seq<Case>, k: nat, split: string, role: string, attackType: Option<string>)
    requires k < |cases|
    ensures var c := cases[k];
            |Places(cases, k + 1, split, role, attackType)| == |Places(cases, k, split, role, attackType)|
              + if c.split == split && c.role == role && (attackType.Some? ==> c.attackType == attackType.value) then 1
                else 0
  {
    var c, before := cases[k], Places(cases, k, split, role, attackType);
    var counts := c.split == split && c.role == role && (attackType.Some? ==> c.attackType == attackType.value);
    assert Places(cases, k + 1, split, role, attackType) == before + if counts then {k} else {};
  }

  lemma {:induction false} NoneDerived(cases: seq<Case>, k: nat)
    requires k <= |cases|
    ensures DerivedGroups(cases, k) == 0 <==> forall i :: 0 <= i < k ==> cases[i].groupSource != "derived_exact_payload"
  {
    if k > 0 { NoneDerived(cases, k - 1); }
  }

  /** At least so many of a split's cases are attacks, negative controls and attacks of each type. */
  ghost predicate Suffices(cases: seq<Case>, split: string, limits: Limits, types: seq<string>) {
    && |Places(cases, |cases|, split, "attack", None)| >= limits.attacks
    && |Places(cases, |cases|, split, "negative_control", None)| >= limits.negatives
    && (limits.perType == 0 ||
        forall t <- types :: |Places(cases, |cases|, split, "attack", Some(t))| >= limits.perType)
  }

  lemma EnoughExactly(cases: seq<Case>, split: string, limits: Limits, types: seq<string>)
    ensures EnoughIn(cases, split, limits, types) <==> Suffices(cases, split, limits, types)
  {
    TallyExactly(cases, |cases|, split, "attack", None);
    TallyExactly(cases, |cases|, split, "negative_control", None);
    forall t <- types
      ensures Tally(cases, |cases|, split, "attack", Some(t)) == |Places(cases, |cases|, split, "attack", Some(t))|
    {
      TallyExactly(cases, |cases|, split, "attack", Some(t));
    }
  }

  /**
   A sound manifest, said of the cases: each in order, ids distinct, no payload and no group in two splits, enough
   of every kind in both splits, and where independence is asked for, attested and with no derived group.
   */
  lemma ManifestExactly(cases: seq<Case>, limits: Limits, types: seq<string>, attested: bool)
    ensures Sound(cases, limits, types, attested) <==>
              && (forall c <- cases :: InOrder(c, types))
              && (forall i, j :: 0 <= i < j < |cases| ==>
                    && cases[i].caseId != cases[j].caseId
                    && (cases[i].split != cases[j].split ==>
                          cases[i].payload != cases[j].payload && cases[i].group != cases[j].group))
              && Suffices(cases, "calibration", limits, types) && Suffices(cases, "holdout", limits, types)
              && (limits.independent ==>
                    attested && forall c <- cases :: c.groupSource != "derived_exact_payload")
  {
    var n := |cases|;
    SoundMeans(cases, n, types);
    forall c <- cases ensures CaseOk(c, types) <==> InOrder(c, types) { CaseExactly(c, types); }
    EnoughExactly(cases, CALIBRATION, limits, types);
    EnoughExactly(cases, HOLDOUT, limits, types);
    NoneDerived(cases, n);
    PairsExactly(cases);
  }

  lemma PairsExactly(cases: seq<Case>)
    ensures DistinctIds(cases, |cases|) && OneSplitEach(cases, |cases|, Payload) && OneSplitEach(cases, |cases|, Group)
       <==> forall i, j :: 0 <= i < j < |cases| ==>
              && cases[i].caseId != cases[j].caseId
              && (cases[i].split != cases[j].split ==>
                    cases[i].payload != cases[j].payload && cases[i].group != cases[j].group)
  {
    forall i | 0 <= i < |cases|
      ensures Digest(cases[i], Payload) == cases[i].payload && Digest(cases[i], Group) == cases[i].group
    {
    }
  }

  // ---------------------------------------------------------------- evaluation rows

  /** `oracle` stands for the digest of the row's oracle fields. */
  datatype Row = Row(caseId: string, fingerprint: string, oracle: string)

  datatype RowFault = RepeatedRow | CohortMismatch | FingerprintMismatch(id: string) | OracleMismatch(id: string)

  function Prefixed(fingerprint: string): string {
    if "sha256:" <= fingerprint then fingerprint else "sha256:" + fingerprint
  }

  /** The cases of a split by id; a later case of the same id replaces an earlier one. */
  function Expected(cases: seq<Case>, k: nat, split: string): map<string, Case>
    requires k <= |cases|
  {
    if k == 0 then map[]
    else
      var before := Expected(cases, k - 1, split);
      if cases[k - 1].split == split then before[cases[k - 1].caseId := cases[k - 1]] else before
  }

  predicate Matches(row: Row, c: Case) {
    Prefixed(row.fingerprint) == c.payload && row.oracle == c.oracle
  }

  /** One row for every expected case, committed to its payload and oracle, and no other row. */
  predicate RowsMatch(rows: seq<Row>, expected: map<string, Case>) {
    && (forall i, j :: 0 <= i < j < |rows| ==> rows[i].caseId != rows[j].caseId)
    && (forall id <- expected :: exists i :: 0 <= i < |rows| && rows[i].caseId == id)
    && (forall i :: 0 <= i < |rows| ==> rows[i].caseId in expected && Matches(rows[i], expected[rows[i].caseId]))
  }

  method CohortOf(cases: seq<Case>, split: string) returns (expected: map<string, Case>)
    ensures expected == Expected(cases, |cases|, split)
  {
    expected := map[];
    for k := 0 to |cases|
      invariant expected == Expected(cases, k, split)
    {
      if cases[k].split == split { expected := expected[cases[k].caseId := cases[k]]; }
    }
  }

  function IdsOf(rows: seq<Row>): set<string> {
    set i | 0 <= i < |rows| :: rows[i].caseId
  }

  predicate DistinctRows(rows: seq<Row>) {
    forall i, j :: 0 <= i < j < |rows| ==> rows[i].caseId != rows[j].caseId
  }

  /** Rows are accepted exactly when they are the cohort of the split. */
  method ValidateRows(rows: seq<Row>, cases: seq<Case>, split: string) returns (r: Result<map<string, Case>, RowFault>)
    ensures r.Ok? <==> RowsMatch(rows, Expected(cases, |cases|, split))
    ensures r.Ok? ==> r.value == Expected(cases, |cases|, split)
  {
    var expected := CohortOf(cases, split);
    if !DistinctRows(rows) { return Err(RepeatedRow); }
    if IdsOf(rows) != expected.Keys {
      SameIds(rows, expected);
      return Err(CohortMismatch);
    }
    SameIds(rows, expected);
    for k := 0 to |rows|
      invariant forall i :: 0 <= i < k ==> Matches(rows[i], expected[rows[i].caseId])
    {
      var row := rows[k];
      if Prefixed(row.fingerprint) != expected[row.caseId].payload { return Err(FingerprintMismatch(row.caseId)); }
      if row.oracle != expected[row.caseId].oracle { return Err(OracleMismatch(row.caseId)); }
    }
    return Ok(expected);
  }

  lemma SameIds(rows: seq<Row>, expected: map<string, Case>)
    ensures IdsOf(rows) == expected.Keys <==>
            && (forall id <- expected :: exists i :: 0 <= i < |rows| && rows[i].caseId == id)
            && (forall i :: 0 <= i < |rows| ==> rows[i].caseId in expected)
  {
    forall i | 0 <= i < |rows| ensures rows[i].caseId in IdsOf(rows) {}
    if IdsOf(rows) == expected.Keys {
      forall id <- expected ensures exists i :: 0 <= i < |rows| && rows[i].caseId == id { assert id in IdsOf(rows); }
    }
  }

  lemma {:induction false} ExpectedIsListed(cases: seq<Case>, k: nat, split: string, id: string) returns (i: nat)
    requires k <= |cases| && id in Expected(cases, k, split)
    ensures i < k && cases[i] == Expected(cases, k, split)[id] && cases[i].caseId == id && cases[i].split == split
  {
    if cases[k - 1].split == split && cases[k - 1].caseId == id { i := k - 1; }
    else { i := ExpectedIsListed(cases, k - 1, split, id); }
  }

  /** A row commits to a case: by its id, its fingerprint with or without the tag, and its oracle. */
  predicate Commits(row: Row, c: Case) {
    && row.caseId == c.caseId && row.oracle == c.oracle
    && c.payload == if |row.fingerprint| >= 7 && row.fingerprint[..7] == "sha256:" then row.fingerprint
         else "sha256:" + row.fingerprint
  }

  lemma {:induction false} ExpectedExactly(cases: seq<Case>, k: nat, split: string, i: nat)
    requires i < k <= |cases| && DistinctIds(cases, k)
    ensures cases[i].split == split ==>
              cases[i].caseId in Expected(cases, k, split) && Expected(cases, k, split)[cases[i].caseId] == cases[i]
  {
    if i < k - 1 { ExpectedExactly(cases, k - 1, split, i); }
  }

  /** With distinct case ids, rows are accepted exactly if they are a split's cases, one row each. */
  lemma RowsExactly(rows: seq<Row>, cases: seq<Case>, split: string)
    requires DistinctIds(cases, |cases|)
    ensures RowsMatch(rows, Expected(cases, |cases|, split)) <==>
              && (forall i, j :: 0 <= i < j < |rows| ==> rows[i].caseId != rows[j].caseId)
              && (forall c <- cases :: c.split == split ==> exists i :: 0 <= i < |rows| && rows[i].caseId == c.caseId)
              && (forall i :: 0 <= i < |rows| ==> exists c <- cases :: c.split == split && Commits(rows[i], c))
  {
    var expected := Expected(cases, |cases|, split);
    forall c <- cases | c.split == split ensures c.caseId in expected && expected[c.caseId] == c {
      var k :| 0 <= k < |cases| && cases[k] == c;
      ExpectedExactly(cases, |cases|, split, k);
    }
    forall id <- expected ensures expected[id] in cases && expected[id].split == split && expected[id].caseId == id {
      var k := ExpectedIsListed(cases, |cases|, split, id);
    }
    forall i | 0 <= i < |rows|
      ensures rows[i].caseId in expected && Matches(rows[i], expected[rows[i].caseId]) <==>
                exists c <- cases :: c.split == split && Commits(rows[i], c)
    {
      RowExactly(rows[i], cases, split, expected);
    }
  }

  lemma RowExactly(row: Row, cases: seq<Case>, split: string, expected: map<string, Case>)
    requires forall c <- cases :: c.split == split ==> c.caseId in expected && expected[c.caseId] == c
    requires forall id <- expected :: expected[id] in cases && expected[id].split == split && expected[id].caseId == id
    ensures row.caseId in expected && Matches(row, expected[row.caseId]) <==>
              exists c <- cases :: c.split == split && Commits(row, c)
  {
    assert forall c: Case :: c.caseId == row.caseId ==> (Matches(row, c) <==> Commits(row, c)) by {
      assert "sha256:" <= row.fingerprint <==> |row.fingerprint| >= 7 && row.fingerprint[..7] == "sha256:";
    }
  }

  /**
   Nothing leaks between the cohorts: with sound cases, accepted calibration and holdout rows
   share no case id, no payload fingerprint and no semantic group.
   */
  lemma CohortsShareNothing(cases: seq<Case>, types: seq<string>, calibration: seq<Row>, holdout: seq<Row>, x: nat,
                            y: nat)
    requires PrefixSound(cases, |cases|, types)
    requires RowsMatch(calibration, Expected(cases, |cases|, CALIBRATION))
             && RowsMatch(holdout, Expected(cases, |cases|, HOLDOUT))
    requires x < |calibration| && y < |holdout|
    ensures calibration[x].caseId != holdout[y].caseId
    ensures Prefixed(calibration[x].fingerprint) != Prefixed(holdout[y].fingerprint)
    ensures Expected(cases, |cases|, CALIBRATION)[calibration[x].caseId].group
            != Expected(cases, |cases|, HOLDOUT)[holdout[y].caseId].group
  {
    var i := ExpectedIsListed(cases, |cases|, CALIBRATION, calibration[x].caseId);
    var j := ExpectedIsListed(cases, |cases|, HOLDOUT, holdout[y].caseId);
    SoundMeans(cases, |cases|, types);
    SplitsDiffer(cases, i, j);
  }

  lemma SplitsDiffer(cases: seq<Case>, i: nat, j: nat)
    requires i < |cases| && j < |cases| && cases[i].split == CALIBRATION && cases[j].split == HOLDOUT
    requires DistinctIds(cases, |cases|) && OneSplitEach(cases, |cases|, Payload) && OneSplitEach(cases, |cases|, Group)
    ensures cases[i].caseId != cases[j].caseId && cases[i].payload != cases[j].payload
            && cases[i].group != cases[j].group
  {
    assert cases[i].split[0] == 'c' && cases[j].split[0] == 'h';
    assert cases[i].payload == Digest(cases[i], Payload) && cases[j].payload == Digest(cases[j], Payload);
    assert cases[i].group == Digest(cases[i], Group) && cases[j].group == Digest(cases[j], Group);
    assert i < j || j < i;
  }
}
