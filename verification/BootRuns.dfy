/** Whole sequences of boots over one data directory: any configurations, crashes
    between the two writes or inside the first, and the dictionary file lost or
    replaced at any time. */
module BootRuns {
  import opened Wrappers
  import opened ServerMeta

  datatype Step =
    | Boot(cfg: Config)
    | CrashBeforeMeta(cfg: Config)
    | CrashInDict(cfg: Config, written: nat)
    | SetDict(dict: Option<Bytes>)

  /** A dictionary write cut short: a prefix of what the boot was writing, if it was
      writing at all. */
  ghost function Torn(sha: Bytes -> string, disk: Disk, cfg: Config, written: nat): Option<Bytes> {
    var dict := DictAfter(sha, disk, cfg);
    if disk.dict.Some? || dict.None? || |dict.value| < written then dict else Some(dict.value[..written])
  }

  /** A crash keeps what the dictionary write of a boot had reached, and nothing after it. */
  ghost function Apply(sha: Bytes -> string, disk: Disk, step: Step): Disk {
    match step
    case Boot(cfg) => After(sha, disk, cfg)
    case CrashBeforeMeta(cfg) => Disk(disk.meta, DictAfter(sha, disk, cfg))
    case CrashInDict(cfg, written) => Disk(disk.meta, Torn(sha, disk, cfg, written))
    case SetDict(dict) => Disk(disk.meta, dict)
  }

  ghost function Run(sha: Bytes -> string, disk: Disk, steps: seq<Step>): Disk {
    if steps == [] then disk
    else Apply(sha, Run(sha, disk, steps[..|steps| - 1]), steps[|steps| - 1])
  }

  /** The `i`-th step is a boot that succeeds. */
  ghost predicate BootedAt(sha: Bytes -> string, disk: Disk, steps: seq<Step>, i: nat)
    requires i < |steps|
  {
    steps[i].Boot? && Succeeds(sha, Run(sha, disk, steps[..i]), steps[i].cfg)
  }

  /** Agreement on everything that may not change after the first boot. */
  ghost predicate SameImmutables(a: Config, b: Config) {
    && a.current.(compression := b.current.compression) == b.current
    && a.desired.level == b.desired.level
    && a.desired.dictionaryName == b.desired.dictionaryName
  }

  /** Metadata once written is never rewritten, by any step. */
  lemma {:induction false} MetaNeverChanges(sha: Bytes -> string, disk: Disk, steps: seq<Step>, i: nat)
    requires i <= |steps| && Run(sha, disk, steps[..i]).meta.Some?
    ensures Run(sha, disk, steps).meta == Run(sha, disk, steps[..i]).meta
    decreases |steps| - i
  {
    if i == |steps| {
      assert steps[..i] == steps;
    } else {
      var front := steps[..|steps| - 1];
      assert front[..i] == steps[..i];
      MetaNeverChanges(sha, disk, front, i);
    }
  }

  /** A success leaves metadata that accepts the configuration and the dictionary. */
  lemma SuccessIsAccepted(sha: Bytes -> string, disk: Disk, cfg: Config)
    requires Succeeds(sha, disk, cfg)
    ensures var d := After(sha, disk, cfg);
      && d.meta.Some? && d.meta.value.Parsed? && d.dict.Some?
      && Accepts(sha, d.meta.value.meta, cfg, d.dict.value)
      && d.meta.value.meta.compression.dictionarySha == Some(sha(d.dict.value))
  {
  }

  lemma AcceptedAlike(sha: Bytes -> string, saved: Meta, a: Config, d: Bytes, b: Config, e: Bytes)
    requires Accepts(sha, saved, a, d) && Accepts(sha, saved, b, e)
    requires a.desired.dictionaryName.Some? && b.desired.dictionaryName.Some?
    ensures SameImmutables(a, b)
  {
    AcceptedFields(sha, saved, a, d);
    AcceptedFields(sha, saved, b, e);
  }

  /** What a saved record accepts, field by field; a missing dictionary name and an empty
      one are the same. */
  lemma AcceptedFields(sha: Bytes -> string, saved: Meta, cfg: Config, d: Bytes)
    ensures Accepts(sha, saved, cfg, d) <==>
      && saved.compression.dictionarySha == Some(sha(d))
      && saved.(compression := cfg.current.compression) == cfg.current
      && saved.compression.level == cfg.desired.level
      && OrEmpty(saved.compression.dictionaryName) == OrEmpty(cfg.desired.dictionaryName)
  {
    if Accepts(sha, saved, cfg, d) {
      assert !Differs(saved, cfg, NumShards) && !Differs(saved, cfg, Precision) && !Differs(saved, cfg, EpochOffset);
      assert !Differs(saved, cfg, RoutingRule) && !Differs(saved, cfg, ReserveCoordinator);
      assert !Differs(saved, cfg, Level) && !Differs(saved, cfg, DictionaryName);
    }
  }

  lemma RunStep(sha: Bytes -> string, disk: Disk, steps: seq<Step>, i: nat)
    requires i < |steps|
    ensures Run(sha, disk, steps[..i + 1]) == Apply(sha, Run(sha, disk, steps[..i]), steps[i])
  {
    assert steps[..i + 1][..i] == steps[..i];
  }

  /** All successful boots of a run agree on every immutable field. */
  lemma SuccessfulBootsAgree(sha: Bytes -> string, disk: Disk, steps: seq<Step>, i: nat, j: nat)
    requires i < j < |steps| && BootedAt(sha, disk, steps, i) && BootedAt(sha, disk, steps, j)
    ensures SameImmutables(steps[i].cfg, steps[j].cfg)
  {
    var before, later := Run(sha, disk, steps[..i]), Run(sha, disk, steps[..j]);
    RunStep(sha, disk, steps, i);
    SuccessIsAccepted(sha, before, steps[i].cfg);
    assert steps[..j][..i + 1] == steps[..i + 1];
    MetaNeverChanges(sha, disk, steps[..j], i + 1);
    SuccessIsAccepted(sha, later, steps[j].cfg);
    var first, second := After(sha, before, steps[i].cfg), After(sha, later, steps[j].cfg);
    AcceptedAlike(sha, first.meta.value.meta, steps[i].cfg, first.dict.value, steps[j].cfg, second.dict.value);
  }

  /** The dictionary is the accepted one, or a built-in can replace it. */
  ghost predicate DictUsable(sha: Bytes -> string, saved: Meta, dict: Option<Bytes>, cfg: Config) {
    match dict
    case Some(d) => saved.compression.dictionarySha == Some(sha(d))
    case None => Rehydrates(sha, saved, cfg)
  }

  /** After a success at step `i` and anything at all since, repeating that boot
      succeeds exactly when the dictionary is intact or can be rehydrated. */
  lemma RepeatSucceedsIff(sha: Bytes -> string, disk: Disk, steps: seq<Step>, i: nat, again: Config)
    requires i < |steps| && BootedAt(sha, disk, steps, i)
    requires SameImmutables(steps[i].cfg, again)
    ensures var now := Run(sha, disk, steps);
      && now.meta.Some? && now.meta.value.Parsed?
      && (Succeeds(sha, now, again) <==> DictUsable(sha, now.meta.value.meta, now.dict, again))
  {
    var before := Run(sha, disk, steps[..i]);
    RunStep(sha, disk, steps, i);
    SuccessIsAccepted(sha, before, steps[i].cfg);
    MetaNeverChanges(sha, disk, steps, i + 1);
    var first := After(sha, before, steps[i].cfg);
    var saved := first.meta.value.meta;
    AcceptedFields(sha, saved, steps[i].cfg, first.dict.value);
    forall f
      ensures !Differs(saved, again, f)
    {
      assert !Differs(saved, steps[i].cfg, f);
    }
  }

  /** In particular a lost dictionary that was built in costs nothing. */
  lemma LostBuiltInRehydrates(sha: Bytes -> string, disk: Disk, steps: seq<Step>, i: nat, again: Config)
    requires i < |steps| && BootedAt(sha, disk, steps, i) && SameImmutables(steps[i].cfg, again)
    requires Run(sha, disk, steps[..i + 1]).dict.Some? && Run(sha, disk, steps).dict == None
    requires var name := again.desired.dictionaryName.value;
      again.desired.dictionaryName.Some? && name in again.builtIn
      && sha(again.builtIn[name]) == sha(Run(sha, disk, steps[..i + 1]).dict.value)
    ensures Succeeds(sha, Run(sha, disk, steps), again)
  {
    var before := Run(sha, disk, steps[..i]);
    RepeatSucceedsIff(sha, disk, steps, i, again);
    RunStep(sha, disk, steps, i);
    SuccessIsAccepted(sha, before, steps[i].cfg);
    MetaNeverChanges(sha, disk, steps, i + 1);
    var first := After(sha, before, steps[i].cfg);
    AcceptedFields(sha, first.meta.value.meta, steps[i].cfg, first.dict.value);
  }

  /** The hash the metadata pins. */
  ghost predicate Pins(disk: Disk, hash: string) {
    && disk.meta.Some? && disk.meta.value.Parsed?
    && disk.meta.value.meta.compression.dictionarySha == Some(hash)
  }

  ghost predicate BuiltInName(cfg: Config) {
    cfg.desired.dictionaryName.Some? && cfg.desired.dictionaryName.value in cfg.builtIn
  }

  function BuiltIn(cfg: Config): Bytes
    requires cfg.desired.dictionaryName.Some? && cfg.desired.dictionaryName.value in cfg.builtIn
  {
    cfg.builtIn[cfg.desired.dictionaryName.value]
  }

  /** A first boot whose dictionary is built in pins the built-in's hash exactly when the
      file was absent or already had that hash: anything else found there is adopted. */
  lemma FirstBootPinsBuiltInIff(sha: Bytes -> string, disk: Disk, cfg: Config)
    requires disk.meta == None && BuiltInName(cfg)
    ensures Succeeds(sha, disk, cfg)
    ensures Pins(After(sha, disk, cfg), sha(BuiltIn(cfg))) <==>
            disk.dict == None || sha(disk.dict.value) == sha(BuiltIn(cfg))
  {
  }

  /** What is pinned decides whether the same boot survives losing the file. */
  lemma SurvivesLossIff(sha: Bytes -> string, disk: Disk, cfg: Config)
    requires disk.meta == None && BuiltInName(cfg)
    ensures Succeeds(sha, Disk(After(sha, disk, cfg).meta, None), cfg) <==>
            disk.dict == None || sha(disk.dict.value) == sha(BuiltIn(cfg))
  {
    FirstBootPinsBuiltInIff(sha, disk, cfg);
    SuccessIsAccepted(sha, disk, cfg);
    var first := After(sha, disk, cfg);
    if Succeeds(sha, Disk(first.meta, None), cfg) {
      SuccessIsAccepted(sha, Disk(first.meta, None), cfg);
    }
  }

  lemma RunTwo(sha: Bytes -> string, disk: Disk, a: Step, b: Step)
    ensures Run(sha, disk, [a]) == Apply(sha, disk, a)
    ensures Run(sha, disk, [a, b]) == Apply(sha, Apply(sha, disk, a), b)
  {
    assert [a][..0] == [] && [a, b][..1] == [a];
    assert Run(sha, disk, []) == disk;
  }

  /** A first boot that crashes after writing any prefix of its dictionary, then boots
      again: the second boot succeeds and pins the prefix, which is the built-in's hash
      exactly when the prefix has it; otherwise losing the file is fatal. */
  lemma TornDictionaryIsAdopted(sha: Bytes -> string, cfg: Config, written: nat)
    requires BuiltInName(cfg) && written <= |BuiltIn(cfg)|
    ensures var steps := [CrashInDict(cfg, written), Boot(cfg)];
      var now := Run(sha, Disk(None, None), steps);
      var genuine := sha(BuiltIn(cfg)[..written]) == sha(BuiltIn(cfg));
      && BootedAt(sha, Disk(None, None), steps, 1)
      && now.dict == Some(BuiltIn(cfg)[..written]) && Pins(now, sha(BuiltIn(cfg)[..written]))
      && (Pins(now, sha(BuiltIn(cfg))) <==> genuine)
      && (Succeeds(sha, Disk(now.meta, None), cfg) <==> genuine)
  {
    var start := Disk(None, None);
    var torn := Disk(None, Some(BuiltIn(cfg)[..written]));
    RunTwo(sha, start, CrashInDict(cfg, written), Boot(cfg));
    assert [CrashInDict(cfg, written), Boot(cfg)][..1] == [CrashInDict(cfg, written)];
    assert Apply(sha, start, CrashInDict(cfg, written)) == torn;
    FirstBootPinsBuiltInIff(sha, torn, cfg);
    SurvivesLossIff(sha, torn, cfg);
  }

  /** In any run with a success behind it whose dictionary was lost: if the boot that
      rehydrates it is cut short, repeating the successful boot is refused unless the
      prefix has the built-in's hash. The file has to be removed first. */
  lemma TornRehydrationIsRefused(sha: Bytes -> string, disk: Disk, steps: seq<Step>, i: nat,
                                 cfg: Config, written: nat, again: Config)
    requires i < |steps| && BootedAt(sha, disk, steps, i) && SameImmutables(steps[i].cfg, again)
    requires cfg.desired.dictionaryName.Some? && Run(sha, disk, steps).dict == None
    requires var dict := DictAfter(sha, Run(sha, disk, steps), cfg); dict.Some? && written <= |dict.value|
    ensures var whole := DictAfter(sha, Run(sha, disk, steps), cfg).value;
      var torn := Run(sha, disk, steps + [CrashInDict(cfg, written)]);
      && torn.dict == Some(whole[..written])
      && (Succeeds(sha, torn, again) <==> sha(whole[..written]) == sha(whole))
  {
    var now, crash := Run(sha, disk, steps), CrashInDict(cfg, written);
    var longer := steps + [crash];
    assert longer[..|steps|] == steps && longer[..i] == steps[..i];
    RepeatSucceedsIff(sha, disk, steps, i, again);
    RepeatSucceedsIff(sha, disk, longer, i, again);
    RunStep(sha, disk, steps, i);
    SuccessIsAccepted(sha, Run(sha, disk, steps[..i]), steps[i].cfg);
    MetaNeverChanges(sha, disk, steps, i + 1);
  }
}
