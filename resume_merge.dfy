/** The merge step of the resume extractor (`_merge_results`): combining the
    per-chunk records into one, field by field, with one policy per field:
    first non-empty personal-info value, longest summary, case-insensitive
    skill union, exact language union, and first-entry-per-key for the four
    record lists. The merge starts from a `base` record: the record the
    caller takes as its empty template (see `ResumeExtractor`). */
module ResumeMerge {
  import opened Wrappers
  import opened Text
  import opened ResumeRecord

  // ---------------------------------------------------------------------
  // Gathering one field across the chunk results, in chunk order.

  /** The entries of `field` of every result, result after result. */
  function Gather<T>(results: seq<Resume>, field: Resume -> seq<T>): seq<T> {
    if results == [] then []
    else Gather(results[..|results| - 1], field) + field(results[|results| - 1])
  }

  lemma GatherSnoc<T>(results: seq<Resume>, r: Resume, field: Resume -> seq<T>)
    ensures Gather(results + [r], field) == Gather(results, field) + field(r)
  {
    assert (results + [r])[..|results|] == results;
  }

  /** The gathered prefix grows by one result's entries. */
  lemma GatherStep<T>(results: seq<Resume>, i: nat, field: Resume -> seq<T>)
    requires i < |results|
    ensures Gather(results[..i + 1], field) == Gather(results[..i], field) + field(results[i])
  {
    assert results[..i + 1] == results[..i] + [results[i]];
    GatherSnoc(results[..i], results[i], field);
  }

  /** The bounds of the inner loop over result `i`'s entries: none of them
      taken is the prefix before it, all of them the prefix through it. */
  lemma GatherInner<T>(results: seq<Resume>, i: nat, field: Resume -> seq<T>)
    requires i < |results|
    ensures Gather(results[..i], field) + field(results[i])[..0] == Gather(results[..i], field)
    ensures Gather(results[..i], field) + field(results[i])[..|field(results[i])|] == Gather(results[..i + 1], field)
  {
    assert field(results[i])[..|field(results[i])|] == field(results[i]);
    GatherStep(results, i, field);
  }

  /** An entry is gathered exactly when some result carries it. */
  lemma {:induction false} GatherMembers<T>(results: seq<Resume>, field: Resume -> seq<T>, x: T)
    ensures x in Gather(results, field) <==> exists i :: 0 <= i < |results| && x in field(results[i])
  {
    if results != [] {
      var n := |results| - 1;
      GatherMembers(results[..n], field, x);
      assert forall i :: 0 <= i < n ==> results[..n][i] == results[i];
      if x in field(results[n]) {
        assert x in Gather(results, field);
      }
    }
  }

  // ---------------------------------------------------------------------
  // Personal info: for each key, the first non-empty value wins.

  /** Setting one key the way the inner loop does: only a non-empty value,
      and only over a missing or empty one. */
  function UpdateKey(acc: map<string, string>, k: string, v: string): map<string, string> {
    if v != "" && (k !in acc || acc[k] == "") then acc[k := v] else acc
  }

  /** The personal info after applying the keys `ks` of one result's
      `info` to `acc` (the order of the keys does not matter). */
  function StepKeys(acc: map<string, string>, info: map<string, string>, ks: set<string>): map<string, string>
    requires ks <= info.Keys
  {
    map k | k in acc.Keys + ks && (k in acc || info[k] != "") ::
      if k in ks && info[k] != "" && (k !in acc || acc[k] == "") then info[k] else acc[k]
  }

  /** One result's whole `personal_info` applied. */
  function PersonalInfoStep(acc: map<string, string>, info: map<string, string>): map<string, string> {
    StepKeys(acc, info, info.Keys)
  }

  /** The merged personal info after all results, starting from `base`. */
  function PersonalInfoOf(base: map<string, string>, results: seq<Resume>): map<string, string> {
    if results == [] then base
    else PersonalInfoStep(PersonalInfoOf(base, results[..|results| - 1]), results[|results| - 1].personalInfo)
  }

  /** The first non-empty value that any result gives for key `k`. */
  function FirstNonEmpty(results: seq<Resume>, k: string): (v: Option<string>)
    ensures v.Some? ==> v.value != "" && exists i :: 0 <= i < |results| && k in results[i].personalInfo && results[i].personalInfo[k] == v.value
    ensures v.None? ==> forall i :: 0 <= i < |results| && k in results[i].personalInfo ==> results[i].personalInfo[k] == ""
  {
    if results == [] then None
    else if k in results[0].personalInfo && results[0].personalInfo[k] != "" then Some(results[0].personalInfo[k])
    else FirstNonEmpty(results[1..], k)
  }

  /** Applying one more key of the same result is one `UpdateKey`. */
  lemma StepKeysAdd(acc: map<string, string>, info: map<string, string>, ks: set<string>, k: string)
    requires ks <= info.Keys && k in info && k !in ks
    ensures StepKeys(acc, info, ks + {k}) == UpdateKey(StepKeys(acc, info, ks), k, info[k])
  {
    var left := StepKeys(acc, info, ks + {k});
    var right := UpdateKey(StepKeys(acc, info, ks), k, info[k]);
    assert left.Keys == right.Keys;
    forall j | j in left.Keys
      ensures left[j] == right[j]
    {
    }
  }

  /** Taking key `k` out of the keys still to apply is one `UpdateKey`. */
  lemma StepKeysRemove(acc: map<string, string>, info: map<string, string>, remaining: set<string>, k: string)
    requires remaining <= info.Keys && k in remaining
    ensures StepKeys(acc, info, info.Keys - (remaining - {k})) ==
      UpdateKey(StepKeys(acc, info, info.Keys - remaining), k, info[k])
  {
    assert (info.Keys - remaining) + {k} == info.Keys - (remaining - {k});
    StepKeysAdd(acc, info, info.Keys - remaining, k);
  }

  /** The merged personal info grows by one result. */
  lemma PersonalInfoOfStep(base: map<string, string>, results: seq<Resume>, i: nat)
    requires i < |results|
    ensures PersonalInfoOf(base, results[..i + 1]) ==
      PersonalInfoStep(PersonalInfoOf(base, results[..i]), results[i].personalInfo)
  {
    assert results[..i + 1][..i] == results[..i];
  }

  lemma StepKeysNone(acc: map<string, string>, info: map<string, string>)
    ensures StepKeys(acc, info, {}) == acc
  {
  }

  lemma {:induction false} FirstNonEmptySnoc(results: seq<Resume>, r: Resume, k: string)
    ensures FirstNonEmpty(results + [r], k) ==
      if FirstNonEmpty(results, k).Some? then FirstNonEmpty(results, k)
      else if k in r.personalInfo && r.personalInfo[k] != "" then Some(r.personalInfo[k])
      else None
  {
    if results == [] {
      assert results + [r] == [r];
    } else {
      assert (results + [r])[1..] == results[1..] + [r];
      FirstNonEmptySnoc(results[1..], r, k);
    }
  }

  /** A value that is already non-empty is never overwritten by later results. */
  lemma {:induction false} NonEmptyNeverOverwritten(base: map<string, string>, results: seq<Resume>, k: string)
    requires k in base && base[k] != ""
    ensures k in PersonalInfoOf(base, results) && PersonalInfoOf(base, results)[k] == base[k]
  {
    if results != [] {
      NonEmptyNeverOverwritten(base, results[..|results| - 1], k);
    }
  }

  /** Where `base` has no value for `k`, the merged value is the first
      non-empty value across the results, in order; with none, the key keeps
      what `base` had (it is absent only if `base` lacks it too). */
  lemma {:induction false} PersonalInfoFirstNonEmpty(base: map<string, string>, results: seq<Resume>, k: string)
    requires k !in base || base[k] == ""
    ensures FirstNonEmpty(results, k).Some? ==>
      k in PersonalInfoOf(base, results) && PersonalInfoOf(base, results)[k] == FirstNonEmpty(results, k).value
    ensures FirstNonEmpty(results, k).None? ==>
      (k in PersonalInfoOf(base, results) <==> k in base)
      && (k in base ==> PersonalInfoOf(base, results)[k] == "")
  {
    if results != [] {
      var n := |results| - 1;
      var prefix := results[..n];
      assert results == prefix + [results[n]];
      PersonalInfoFirstNonEmpty(base, prefix, k);
      FirstNonEmptySnoc(prefix, results[n], k);
    }
  }

  /** `merged["personal_info"]` after the loop over the results. */
  method MergePersonalInfo(base: map<string, string>, results: seq<Resume>) returns (info: map<string, string>)
    ensures info == PersonalInfoOf(base, results)
  {
    info := base;
    var i := 0;
    while i < |results|
      invariant 0 <= i <= |results|
      invariant info == PersonalInfoOf(base, results[..i])
    {
      var item := results[i].personalInfo;
      ghost var before := info;
      var remaining := item.Keys;
      StepKeysNone(before, item);
      while remaining != {}
        invariant remaining <= item.Keys
        invariant info == StepKeys(before, item, item.Keys - remaining)
        decreases remaining
      {
        var key :| key in remaining;
        var value := item[key];
        StepKeysRemove(before, item, remaining, key);
        if value != "" && (key !in info || info[key] == "") {
          info := info[key := value];
        }
        remaining := remaining - {key};
      }
      assert item.Keys - remaining == item.Keys;
      PersonalInfoOfStep(base, results, i);
      i := i + 1;
    }
    assert results[..i] == results;
  }

  // ---------------------------------------------------------------------
  // Professional summary: the longest non-empty one, earliest on a tie.

  /** `[r.get("professional_summary") for r in results if ...]`: the
      non-empty summaries, in result order. */
  function Summaries(results: seq<Resume>): seq<string> {
    if results == [] then []
    else
      var last := results[|results| - 1].professionalSummary;
      Summaries(results[..|results| - 1]) + (if last != "" then [last] else [])
  }

  /** `max(ss, key=len)`: a longest string, the first of the longest ones. */
  function Longest(ss: seq<string>): (r: string)
    requires |ss| > 0
    ensures forall j :: 0 <= j < |ss| ==> |ss[j]| <= |r|
    ensures exists i :: 0 <= i < |ss| && ss[i] == r && forall j :: 0 <= j < i ==> |ss[j]| < |r|
  {
    if |ss| == 1 then ss[0]
    else
      var best := Longest(ss[..|ss| - 1]);
      if |ss[|ss| - 1]| > |best| then ss[|ss| - 1] else best
  }

  /** `merged["professional_summary"]`: unchanged from `base` when no result
      has a summary. */
  function SummaryOf(base: string, results: seq<Resume>): string {
    var ss := Summaries(results);
    if ss == [] then base else Longest(ss)
  }

  lemma {:induction false} SummariesEmpty(results: seq<Resume>)
    ensures Summaries(results) == [] <==> NoSummary(results)
  {
    if results != [] {
      var n := |results| - 1;
      var prefix := results[..n];
      SummariesEmpty(prefix);
      assert results == prefix + [results[n]];
      NoSummarySnoc(prefix, results[n]);
    }
  }

  lemma NoSummarySnoc(prefix: seq<Resume>, r: Resume)
    ensures NoSummary(prefix + [r]) <==> NoSummary(prefix) && r.professionalSummary == ""
  {
    var rs := prefix + [r];
    assert rs[|prefix|] == r;
    assert forall i :: 0 <= i < |prefix| ==> rs[i] == prefix[i];
  }

  /** No result carries a summary. */
  ghost predicate NoSummary(results: seq<Resume>) {
    forall i :: 0 <= i < |results| ==> results[i].professionalSummary == ""
  }

  /** `s` is a non-empty summary of some result, at least as long as every
      other and strictly longer than every summary before it. */
  ghost predicate IsLongestSummary(results: seq<Resume>, s: string) {
    && s != ""
    && (forall j :: 0 <= j < |results| ==> |results[j].professionalSummary| <= |s|)
    && exists i :: 0 <= i < |results| && results[i].professionalSummary == s
         && forall j :: 0 <= j < i ==> |results[j].professionalSummary| < |s|
  }

  lemma LongestSummaryFirst(prefix: seq<Resume>, r: Resume)
    requires NoSummary(prefix) && r.professionalSummary != ""
    ensures IsLongestSummary(prefix + [r], r.professionalSummary)
  {
    var rs := prefix + [r];
    assert rs[|prefix|] == r;
    assert forall j :: 0 <= j < |prefix| ==> rs[j] == prefix[j];
  }

  lemma LongestSummaryExtend(prefix: seq<Resume>, r: Resume, s: string)
    requires IsLongestSummary(prefix, s)
    ensures IsLongestSummary(prefix + [r], if |r.professionalSummary| > |s| then r.professionalSummary else s)
  {
    var rs := prefix + [r];
    assert rs[|prefix|] == r;
    assert forall j :: 0 <= j < |prefix| ==> rs[j] == prefix[j];
    var i :| 0 <= i < |prefix| && prefix[i].professionalSummary == s
      && forall j :: 0 <= j < i ==> |prefix[j].professionalSummary| < |s|;
    if |r.professionalSummary| > |s| {
      assert rs[|prefix|].professionalSummary == r.professionalSummary;
    } else {
      assert rs[i].professionalSummary == s;
    }
  }

  lemma LongestSnoc(ps: seq<string>, x: string)
    requires |ps| > 0
    ensures Longest(ps + [x]) == if |x| > |Longest(ps)| then x else Longest(ps)
  {
    assert (ps + [x])[..|ps|] == ps;
  }

  /** The merged summary is the longest non-empty summary, earliest on a
      tie; with no non-empty summary it is `base`. */
  lemma {:induction false} LongestSummaryWins(base: string, results: seq<Resume>)
    ensures NoSummary(results) ==> SummaryOf(base, results) == base
    ensures !NoSummary(results) ==> IsLongestSummary(results, SummaryOf(base, results))
  {
    SummariesEmpty(results);
    if results != [] {
      var n := |results| - 1;
      var prefix := results[..n];
      var r := results[n];
      assert results == prefix + [r];
      LongestSummaryWins(base, prefix);
      SummariesEmpty(prefix);
      var ps := Summaries(prefix);
      assert Summaries(results) == ps + (if r.professionalSummary != "" then [r.professionalSummary] else []);
      if ps == [] {
        if r.professionalSummary != "" {
          assert Summaries(results) == [r.professionalSummary];
          LongestSummaryFirst(prefix, r);
        } else {
          assert NoSummary(results);
        }
      } else {
        LongestSummaryExtend(prefix, r, Longest(ps));
        if r.professionalSummary != "" {
          LongestSnoc(ps, r.professionalSummary);
        } else {
          assert Summaries(results) == ps;
        }
      }
    }
  }

  // ---------------------------------------------------------------------
  // Skills: case-insensitive union, first-seen spelling, sorted.

  /** `skills_map` after seeing `xs`: lower-cased form to first spelling. */
  function FirstSpellings(xs: seq<string>): map<string, string> {
    if xs == [] then map[]
    else
      var m := FirstSpellings(xs[..|xs| - 1]);
      var x := xs[|xs| - 1];
      if Lower(x) in m then m else m[Lower(x) := x]
  }

  /** One more skill seen: its lower-cased form gets it as spelling unless
      an earlier skill already claimed that form. */
  lemma FirstSpellingsStep(before: seq<string>, items: seq<string>, j: nat)
    requires j < |items|
    ensures FirstSpellings(before + items[..j + 1]) ==
      var m := FirstSpellings(before + items[..j]);
      if Lower(items[j]) in m then m else m[Lower(items[j]) := items[j]]
  {
    var xs := before + items[..j + 1];
    assert xs[..|xs| - 1] == before + items[..j];
    assert xs[|xs| - 1] == items[j];
  }

  /** The least position of `xs` whose key is `k`, or `|xs|` if none. */
  function FirstIndex<T, K(==)>(xs: seq<T>, key: T -> K, k: K): (i: nat)
    ensures i <= |xs|
    ensures i < |xs| ==> key(xs[i]) == k
    ensures forall j :: 0 <= j < i ==> key(xs[j]) != k
  {
    if xs == [] then 0
    else if key(xs[0]) == k then 0
    else 1 + FirstIndex(xs[1..], key, k)
  }

  lemma {:induction false} FirstIndexSnoc<T, K>(xs: seq<T>, x: T, key: T -> K, k: K)
    ensures FirstIndex(xs, key, k) < |xs| ==> FirstIndex(xs + [x], key, k) == FirstIndex(xs, key, k)
    ensures FirstIndex(xs, key, k) == |xs| ==>
      FirstIndex(xs + [x], key, k) == if key(x) == k then |xs| else |xs| + 1
  {
    if xs == [] {
      assert xs + [x] == [x];
      assert [x][1..] == [];
    } else {
      assert (xs + [x])[0] == xs[0];
      assert (xs + [x])[1..] == xs[1..] + [x];
      FirstIndexSnoc(xs[1..], x, key, k);
    }
  }

  /** Which spelling each lower-cased skill keeps: every input skill's
      lower-cased form has an entry, and each entry is the first input whose
      lower-cased form it is. */
  lemma {:induction false} FirstSpellingsSpec(xs: seq<string>)
    ensures FirstSpellings(xs).Keys == set x | x in xs :: Lower(x)
    ensures forall k :: k in FirstSpellings(xs) ==>
      FirstIndex(xs, Lower, k) < |xs| && FirstSpellings(xs)[k] == xs[FirstIndex(xs, Lower, k)]
  {
    if xs != [] {
      var n := |xs| - 1;
      var prefix := xs[..n];
      var x := xs[n];
      assert xs == prefix + [x];
      FirstSpellingsSpec(prefix);
      var m := FirstSpellings(prefix);
      assert (set y | y in xs :: Lower(y)) == (set y | y in prefix :: Lower(y)) + {Lower(x)};
      forall k | k in FirstSpellings(xs)
        ensures FirstIndex(xs, Lower, k) < |xs| && FirstSpellings(xs)[k] == xs[FirstIndex(xs, Lower, k)]
      {
        FirstIndexSnoc(prefix, x, Lower, k);
        if k in m {
          assert xs[FirstIndex(prefix, Lower, k)] == prefix[FirstIndex(prefix, Lower, k)];
        } else {
          assert k == Lower(x);
        }
      }
    }
  }

  /** `merged["skills"]`: the loop filling `skills_set` / `skills_map`, then
      `sorted(skills_map.values())`. */
  method MergeSkills(results: seq<Resume>) returns (skills: seq<string>)
    ensures StrictlySorted(skills)
    ensures Elements(skills) == FirstSpellings(Gather(results, (r: Resume) => r.skills)).Values
  {
    var skillsSet: set<string> := {};
    var skillsMap: map<string, string> := map[];
    var i := 0;
    while i < |results|
      invariant 0 <= i <= |results|
      invariant skillsMap == FirstSpellings(Gather(results[..i], (r: Resume) => r.skills))
      invariant skillsSet == skillsMap.Keys
    {
      var items := results[i].skills;
      ghost var before := Gather(results[..i], (r: Resume) => r.skills);
      var j := 0;
      assert before + items[..0] == before;
      while j < |items|
        invariant 0 <= j <= |items|
        invariant skillsMap == FirstSpellings(before + items[..j])
        invariant skillsSet == skillsMap.Keys
      {
        var skill := items[j];
        var skillLower := Lower(skill);
        FirstSpellingsStep(before, items, j);
        if skillLower !in skillsSet {
          skillsSet := skillsSet + {skillLower};
          skillsMap := skillsMap[skillLower := skill];
        }
        j := j + 1;
      }
      assert items[..j] == items;
      GatherStep(results, i, (r: Resume) => r.skills);
      i := i + 1;
    }
    assert results[..i] == results;
    skills := SortStrings(skillsMap.Values);
  }

  /** What the merged skills are: pairwise different even ignoring case,
      each the first-seen spelling of its lower-cased form, and every input
      skill is represented by its lower-cased form. */
  lemma SkillsPolicy(results: seq<Resume>, skills: seq<string>)
    requires StrictlySorted(skills)
    requires Elements(skills) == FirstSpellings(Gather(results, (r: Resume) => r.skills)).Values
    ensures forall i, j :: 0 <= i < j < |skills| ==> Lower(skills[i]) != Lower(skills[j])
    ensures forall i :: 0 <= i < |skills| ==>
      var all := Gather(results, (r: Resume) => r.skills);
      FirstIndex(all, Lower, Lower(skills[i])) < |all| && all[FirstIndex(all, Lower, Lower(skills[i]))] == skills[i]
    ensures forall x :: x in Gather(results, (r: Resume) => r.skills) ==> exists i :: 0 <= i < |skills| && Lower(skills[i]) == Lower(x)
  {
    var all := Gather(results, (r: Resume) => r.skills);
    var m := FirstSpellings(all);
    FirstSpellingsSpec(all);
    assert forall v :: v in m.Values ==> exists k :: k in m && m[k] == v;
    forall i | 0 <= i < |skills|
      ensures Lower(skills[i]) in m && m[Lower(skills[i])] == skills[i]
    {
      assert skills[i] in Elements(skills);
      var k :| k in m && m[k] == skills[i];
      assert Lower(all[FirstIndex(all, Lower, k)]) == k;
    }
    forall i, j | 0 <= i < j < |skills|
      ensures Lower(skills[i]) != Lower(skills[j])
    {
      LexLessIrreflexive(skills[i]);
    }
    forall x | x in all
      ensures exists i :: 0 <= i < |skills| && Lower(skills[i]) == Lower(x)
    {
      var k := Lower(x);
      assert k in m;
      assert m[k] in m.Values;
      var i :| 0 <= i < |skills| && skills[i] == m[k];
      assert Lower(all[FirstIndex(all, Lower, k)]) == k;
    }
  }

  // ---------------------------------------------------------------------
  // Languages: exact-string union, sorted.

  /** `langs_set`: every language any result lists. */
  function LanguageSet(results: seq<Resume>): set<string> {
    Elements(Gather(results, (r: Resume) => r.languages))
  }

  /** `merged["languages"]`: `langs_set.update(...)` per result, then
      `sorted(list(langs_set))`. */
  method MergeLanguages(results: seq<Resume>) returns (languages: seq<string>)
    ensures StrictlySorted(languages)
    ensures Elements(languages) == LanguageSet(results)
  {
    var langsSet: set<string> := {};
    var i := 0;
    while i < |results|
      invariant 0 <= i <= |results|
      invariant langsSet == LanguageSet(results[..i])
    {
      GatherSnoc(results[..i], results[i], (r: Resume) => r.languages);
      assert results[..i + 1] == results[..i] + [results[i]];
      langsSet := langsSet + Elements(results[i].languages);
      i := i + 1;
    }
    assert results[..i] == results;
    languages := SortStrings(langsSet);
  }

  /** A language is merged exactly when some result lists it. */
  lemma LanguagesPolicy(results: seq<Resume>, languages: seq<string>, x: string)
    requires Elements(languages) == LanguageSet(results)
    ensures x in languages <==> exists i :: 0 <= i < |results| && x in results[i].languages
  {
    GatherMembers(results, (r: Resume) => r.languages, x);
    assert x in languages <==> x in Elements(languages);
  }

  // ---------------------------------------------------------------------
  // Experience, education, certifications, projects: first entry per key.

  /** The keys of the entries of `xs`. */
  function KeysOf<T, K(==)>(xs: seq<T>, key: T -> K): set<K> {
    set i | 0 <= i < |xs| :: key(xs[i])
  }

  /** The entries of `xs` kept by a `seen`-set loop: an entry is appended
      when its key is not `blank` and no earlier kept entry has its key. */
  function KeepFirstByKey<T, K(==)>(xs: seq<T>, key: T -> K, blank: K): seq<T> {
    if xs == [] then []
    else
      var kept := KeepFirstByKey(xs[..|xs| - 1], key, blank);
      var x := xs[|xs| - 1];
      if key(x) != blank && key(x) !in KeysOf(kept, key) then kept + [x] else kept
  }

  /** One more entry seen by the `seen`-set loop: a fresh, non-blank key
      appends the entry and joins the kept keys; otherwise nothing changes. */
  lemma KeepFirstByKeyStep<T, K>(before: seq<T>, items: seq<T>, j: nat, key: T -> K, blank: K)
    requires j < |items|
    ensures key(items[j]) != blank && key(items[j]) !in KeysOf(KeepFirstByKey(before + items[..j], key, blank), key) ==>
      KeepFirstByKey(before + items[..j + 1], key, blank) == KeepFirstByKey(before + items[..j], key, blank) + [items[j]]
      && KeysOf(KeepFirstByKey(before + items[..j + 1], key, blank), key)
         == KeysOf(KeepFirstByKey(before + items[..j], key, blank), key) + {key(items[j])}
    ensures !(key(items[j]) != blank && key(items[j]) !in KeysOf(KeepFirstByKey(before + items[..j], key, blank), key)) ==>
      KeepFirstByKey(before + items[..j + 1], key, blank) == KeepFirstByKey(before + items[..j], key, blank)
  {
    var xs := before + items[..j + 1];
    assert xs[..|xs| - 1] == before + items[..j];
    assert xs[|xs| - 1] == items[j];
    KeysOfSnoc(KeepFirstByKey(before + items[..j], key, blank), items[j], key);
  }

  lemma KeysOfSnoc<T, K>(xs: seq<T>, x: T, key: T -> K)
    ensures KeysOf(xs + [x], key) == KeysOf(xs, key) + {key(x)}
  {
    var ys := xs + [x];
    assert forall i :: 0 <= i < |xs| ==> ys[i] == xs[i];
    assert key(ys[|xs|]) == key(x);
    forall k | k in KeysOf(ys, key)
      ensures k in KeysOf(xs, key) + {key(x)}
    {
      var i :| 0 <= i < |ys| && key(ys[i]) == k;
      if i < |xs| {
        assert key(xs[i]) == k;
      }
    }
  }

  lemma KeysOfFirstIndex<T, K>(xs: seq<T>, key: T -> K, k: K)
    ensures k in KeysOf(xs, key) <==> FirstIndex(xs, key, k) < |xs|
  {
    if FirstIndex(xs, key, k) < |xs| {
      assert key(xs[FirstIndex(xs, key, k)]) == k;
    }
  }

  /** What survives deduplication: keys pairwise different and never
      `blank`, every non-blank key of the input represented, and each kept
      entry is the first input entry with its key. */
  lemma {:induction false} KeepFirstByKeySpec<T, K>(xs: seq<T>, key: T -> K, blank: K)
    ensures var kept := KeepFirstByKey(xs, key, blank);
      && (forall i, j :: 0 <= i < j < |kept| ==> key(kept[i]) != key(kept[j]))
      && (forall i :: 0 <= i < |kept| ==> key(kept[i]) != blank)
      && KeysOf(kept, key) == KeysOf(xs, key) - {blank}
  {
    if xs != [] {
      var n := |xs| - 1;
      var prefix := xs[..n];
      var x := xs[n];
      KeepFirstByKeySpec(prefix, key, blank);
      var kept' := KeepFirstByKey(prefix, key, blank);
      assert xs == prefix + [x];
      KeysOfSnoc(prefix, x, key);
      if key(x) != blank && key(x) !in KeysOf(kept', key) {
        KeysOfSnoc(kept', x, key);
        var kept := kept' + [x];
        forall i, j | 0 <= i < j < |kept|
          ensures key(kept[i]) != key(kept[j])
        {
          if j == |kept'| {
            assert key(kept'[i]) in KeysOf(kept', key);
          } else {
            assert kept[i] == kept'[i] && kept[j] == kept'[j];
          }
        }
      }
    }
  }

  /** Kept entries are first occurrences, in the order of the input. */
  lemma {:induction false} KeepFirstByKeyOrder<T, K>(xs: seq<T>, key: T -> K, blank: K)
    ensures var kept := KeepFirstByKey(xs, key, blank);
      && (forall i :: 0 <= i < |kept| ==>
            FirstIndex(xs, key, key(kept[i])) < |xs| && xs[FirstIndex(xs, key, key(kept[i]))] == kept[i])
      && (forall i, j :: 0 <= i < j < |kept| ==>
            FirstIndex(xs, key, key(kept[i])) < FirstIndex(xs, key, key(kept[j])))
  {
    if xs != [] {
      var n := |xs| - 1;
      var prefix := xs[..n];
      var x := xs[n];
      KeepFirstByKeyOrder(prefix, key, blank);
      KeepFirstByKeySpec(prefix, key, blank);
      var kept' := KeepFirstByKey(prefix, key, blank);
      var kept := KeepFirstByKey(xs, key, blank);
      assert xs == prefix + [x];
      forall i | 0 <= i < |kept'|
        ensures FirstIndex(xs, key, key(kept'[i])) == FirstIndex(prefix, key, key(kept'[i]))
      {
        FirstIndexSnoc(prefix, x, key, key(kept'[i]));
      }
      if key(x) != blank && key(x) !in KeysOf(kept', key) {
        assert key(x) !in KeysOf(prefix, key);
        KeysOfFirstIndex(prefix, key, key(x));
        FirstIndexSnoc(prefix, x, key, key(x));
        assert FirstIndex(xs, key, key(x)) == n;
        forall i | 0 <= i < |kept|
          ensures FirstIndex(xs, key, key(kept[i])) < |xs| && xs[FirstIndex(xs, key, key(kept[i]))] == kept[i]
        {
          if i < |kept'| {
            assert kept[i] == kept'[i];
          }
        }
        forall i, j | 0 <= i < j < |kept|
          ensures FirstIndex(xs, key, key(kept[i])) < FirstIndex(xs, key, key(kept[j]))
        {
          assert kept[i] == kept'[i];
          if j < |kept'| {
            assert kept[j] == kept'[j];
          }
        }
      }
    }
  }

  /** The loop over the results for one of the four record lists: entries
      appended to `base` under a `seen` set of keys. */
  method MergeKeyed<T, K(==)>(base: seq<T>, results: seq<Resume>, field: Resume -> seq<T>, key: T -> K, blank: K)
    returns (out: seq<T>)
    ensures out == base + KeepFirstByKey(Gather(results, field), key, blank)
  {
    out := base;
    var seen: set<K> := {};
    var i := 0;
    while i < |results|
      invariant 0 <= i <= |results|
      invariant out == base + KeepFirstByKey(Gather(results[..i], field), key, blank)
      invariant seen == KeysOf(KeepFirstByKey(Gather(results[..i], field), key, blank), key)
    {
      var items := field(results[i]);
      ghost var before := Gather(results[..i], field);
      GatherInner(results, i, field);
      var j := 0;
      while j < |items|
        invariant 0 <= j <= |items|
        invariant out == base + KeepFirstByKey(before + items[..j], key, blank)
        invariant seen == KeysOf(KeepFirstByKey(before + items[..j], key, blank), key)
      {
        var item := items[j];
        var k := key(item);
        KeepFirstByKeyStep(before, items, j, key, blank);
        if k !in seen && k != blank {
          seen := seen + {k};
          out := out + [item];
        }
        j := j + 1;
      }
      i := i + 1;
    }
    assert results[..i] == results;
  }

  /** `(exp["company"].lower(), exp["position"].lower())`. */
  function ExperienceKey(e: Experience): (string, string) {
    (Lower(e.company), Lower(e.position))
  }

  /** `(edu["institution"].lower(), edu["degree"].lower())`. */
  function EducationKey(e: Education): (string, string) {
    (Lower(e.institution), Lower(e.degree))
  }

  function CertificationKey(c: Certification): string {
    Lower(c.name)
  }

  function ProjectKey(p: Project): string {
    Lower(p.name)
  }

  // ---------------------------------------------------------------------
  // The whole merge.

  /** `merged` is what `_merge_results(results)` returns when its empty
      template holds `base`. */
  ghost predicate IsMergeOf(merged: Resume, base: Resume, results: seq<Resume>) {
    && merged.personalInfo == PersonalInfoOf(base.personalInfo, results)
    && merged.professionalSummary == SummaryOf(base.professionalSummary, results)
    && StrictlySorted(merged.skills)
    && Elements(merged.skills) == FirstSpellings(Gather(results, (r: Resume) => r.skills)).Values
    && merged.experience == base.experience + KeepFirstByKey(Gather(results, (r: Resume) => r.experience), ExperienceKey, ("", ""))
    && merged.education == base.education + KeepFirstByKey(Gather(results, (r: Resume) => r.education), EducationKey, ("", ""))
    && merged.certifications == base.certifications + KeepFirstByKey(Gather(results, (r: Resume) => r.certifications), CertificationKey, "")
    && merged.projects == base.projects + KeepFirstByKey(Gather(results, (r: Resume) => r.projects), ProjectKey, "")
    && StrictlySorted(merged.languages)
    && Elements(merged.languages) == LanguageSet(results)
  }

  /** `_merge_results`, field by field in the source's order. */
  method MergeResults(base: Resume, results: seq<Resume>) returns (merged: Resume)
    ensures IsMergeOf(merged, base, results)
  {
    var info := MergePersonalInfo(base.personalInfo, results);
    var summary := SummaryOf(base.professionalSummary, results);
    var skills := MergeSkills(results);
    var languages := MergeLanguages(results);
    var experience := MergeKeyed(base.experience, results, (r: Resume) => r.experience, ExperienceKey, ("", ""));
    var education := MergeKeyed(base.education, results, (r: Resume) => r.education, EducationKey, ("", ""));
    var certifications := MergeKeyed(base.certifications, results, (r: Resume) => r.certifications, CertificationKey, "");
    var projects := MergeKeyed(base.projects, results, (r: Resume) => r.projects, ProjectKey, "");
    merged := Resume(info, summary, skills, experience, education, certifications, projects, languages);
  }

  /** The merge is a function of the results: two records that are both a
      merge of the same `base` and `results` are equal. */
  lemma MergeDeterministic(m1: Resume, m2: Resume, base: Resume, results: seq<Resume>)
    requires IsMergeOf(m1, base, results) && IsMergeOf(m2, base, results)
    ensures m1 == m2
  {
    StrictlySortedUnique(m1.skills, m2.skills);
    StrictlySortedUnique(m1.languages, m2.languages);
  }
}
