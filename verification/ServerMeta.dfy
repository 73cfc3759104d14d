/** Boot metadata: what `server_meta.toml` pins, and the dictionary file beside it.
    The hash is a parameter; serialisation is taken to round-trip. */
module ServerMeta {
  import opened Wrappers

  type Bytes = seq<bv8>

  datatype Compression = Compression(level: Option<nat>, dictionaryName: Option<string>, dictionarySha: Option<string>)

  datatype Meta = Meta(
    numShards: nat,
    precision: string,
    epochOffsetSecs: int,
    routingRule: string,
    reserveCoordinator: bool,
    compression: Compression)

  /** The metadata file parses or it does not. */
  datatype MetaFile = Garbled | Parsed(meta: Meta)

  datatype Disk = Disk(meta: Option<MetaFile>, dict: Option<Bytes>)

  /** One boot's configuration and the dictionaries built into its binary. */
  datatype Config = Config(current: Meta, desired: Compression, builtIn: map<string, Bytes>)

  datatype Field =
    | NumShards | Precision | EpochOffset | RoutingRule | ReserveCoordinator
    | Level | DictionaryName | DictionarySha

  datatype Refusal =
    | NameRequired
    | NotBuiltIn
    | CannotRehydrate
    | BuiltInDiffers
    | Unparseable
    | ShaDiffers
    | Mismatched(fields: seq<Field>)

  datatype Outcome = Booted | Refused(why: Refusal)

  function OrEmpty(s: Option<string>): string { if s.Some? then s.value else "" }

  predicate Differs(saved: Meta, cfg: Config, f: Field) {
    match f
    case NumShards => saved.numShards != cfg.current.numShards
    case Precision => saved.precision != cfg.current.precision
    case EpochOffset => saved.epochOffsetSecs != cfg.current.epochOffsetSecs
    case RoutingRule => saved.routingRule != cfg.current.routingRule
    case ReserveCoordinator => saved.reserveCoordinator != cfg.current.reserveCoordinator
    case Level => saved.compression.level != cfg.desired.level
    case DictionaryName => OrEmpty(saved.compression.dictionaryName) != OrEmpty(cfg.desired.dictionaryName)
    case DictionarySha => saved.compression.dictionarySha.None?
  }

  /** What a first boot writes. */
  function Fresh(cfg: Config, sha: string): Meta {
    cfg.current.(compression := Compression(cfg.desired.level, cfg.desired.dictionaryName, Some(sha)))
  }

  /** Built-in bytes that may stand in for a lost dictionary. */
  predicate Rehydrates(sha: Bytes -> string, saved: Meta, cfg: Config) {
    var name := OrEmpty(saved.compression.dictionaryName);
    name in cfg.builtIn && sha(cfg.builtIn[name]) == OrEmpty(saved.compression.dictionarySha)
  }

  /** The saved metadata accepts the configuration and the dictionary on disk. */
  ghost predicate Accepts(sha: Bytes -> string, saved: Meta, cfg: Config, dict: Bytes) {
    saved.compression.dictionarySha == Some(sha(dict)) && forall f :: !Differs(saved, cfg, f)
  }

  function Note(fields: seq<Field>, differs: bool, f: Field): (r: seq<Field>)
    ensures forall g :: g in r <==> g in fields || (differs && g == f)
  {
    if differs then fields + [f] else fields
  }

  /** The dictionary file after the step of a boot that may write it. */
  function DictAfter(sha: Bytes -> string, disk: Disk, cfg: Config): Option<Bytes> {
    if disk.dict.Some? || cfg.desired.dictionaryName.None? then disk.dict
    else match disk.meta
      case None =>
        var name := cfg.desired.dictionaryName.value;
        if name in cfg.builtIn then Some(cfg.builtIn[name]) else None
      case Some(Garbled) => None
      case Some(Parsed(saved)) =>
        if Rehydrates(sha, saved, cfg) then Some(cfg.builtIn[OrEmpty(saved.compression.dictionaryName)]) else None
  }

  /** When a boot succeeds, decided from the disk and the configuration alone. */
  ghost predicate Succeeds(sha: Bytes -> string, disk: Disk, cfg: Config) {
    var dict := DictAfter(sha, disk, cfg);
    && cfg.desired.dictionaryName.Some?
    && dict.Some?
    && match disk.meta
       case None => true
       case Some(Garbled) => false
       case Some(Parsed(saved)) => Accepts(sha, saved, cfg, dict.value)
  }

  /** The disk a boot leaves. */
  ghost function After(sha: Bytes -> string, disk: Disk, cfg: Config): Disk {
    var dict := DictAfter(sha, disk, cfg);
    if disk.meta.None? && Succeeds(sha, disk, cfg)
    then Disk(Some(Parsed(Fresh(cfg, sha(dict.value)))), dict)
    else Disk(disk.meta, dict)
  }

  predicate OfCompression(f: Field) { f.Level? || f.DictionaryName? || f.DictionarySha? }

  method ListServerFields(saved: Meta, cfg: Config) returns (fields: seq<Field>)
    ensures forall f :: f in fields <==> Differs(saved, cfg, f) && !OfCompression(f)
  {
    fields := Note([], saved.numShards != cfg.current.numShards, NumShards);
    fields := Note(fields, saved.precision != cfg.current.precision, Precision);
    fields := Note(fields, saved.epochOffsetSecs != cfg.current.epochOffsetSecs, EpochOffset);
    fields := Note(fields, saved.routingRule != cfg.current.routingRule, RoutingRule);
    fields := Note(fields, saved.reserveCoordinator != cfg.current.reserveCoordinator, ReserveCoordinator);
  }

  method ListMismatches(saved: Meta, cfg: Config) returns (fields: seq<Field>)
    ensures forall f :: f in fields <==> Differs(saved, cfg, f)
  {
    fields := ListServerFields(saved, cfg);
    fields := Note(fields, saved.compression.level != cfg.desired.level, Level);
    var renamed := OrEmpty(saved.compression.dictionaryName) != OrEmpty(cfg.desired.dictionaryName);
    fields := Note(fields, renamed, DictionaryName);
    fields := Note(fields, saved.compression.dictionarySha.None?, DictionarySha);
  }

  /** The data directory of one server. */
  class DataRoot {
    const sha: Bytes -> string
    var meta: Option<MetaFile>
    var dict: Option<Bytes>

    constructor (sha: Bytes -> string, disk: Disk)
      ensures this.sha == sha && Contents() == disk
    {
      this.sha, meta, dict := sha, disk.meta, disk.dict;
    }

    function Contents(): Disk
      reads this
    {
      Disk(meta, dict)
    }

    /** Compare the configuration with the saved metadata. Every differing field is
        listed; a wrong dictionary is refused before that list is read. */
    method ValidateExisting(cfg: Config) returns (r: Outcome)
      requires meta.Some? && dict.Some?
      ensures r == Booted <==> meta.value.Parsed? && Accepts(sha, meta.value.meta, cfg, dict.value)
      ensures r == Refused(Unparseable) <==> meta.value.Garbled?
      ensures r == Refused(ShaDiffers) <==>
        && meta.value.Parsed? && meta.value.meta.compression.dictionarySha.Some?
        && meta.value.meta.compression.dictionarySha != Some(sha(dict.value))
      ensures r.Refused? ==> r.why.Unparseable? || r.why.ShaDiffers? || r.why.Mismatched?
      ensures r.Refused? && r.why.Mismatched? ==>
        meta.value.Parsed? && forall f :: f in r.why.fields <==> Differs(meta.value.meta, cfg, f)
    {
      if meta.value.Garbled? {
        return Refused(Unparseable);
      }
      var saved := meta.value.meta;
      var fields := ListMismatches(saved, cfg);
      if saved.compression.dictionarySha.Some? && sha(dict.value) != saved.compression.dictionarySha.value {
        return Refused(ShaDiffers);
      }
      if fields == [] {
        assert DictionarySha !in fields;
        return Booted;
      }
      assert Differs(saved, cfg, fields[0]);
      r := Refused(Mismatched(fields));
    }

    /** The boot decision table. */
    method ValidateOrCreate(cfg: Config) returns (r: Outcome)
      modifies this
      ensures r == Booted <==> Succeeds(sha, old(Contents()), cfg)
      ensures Contents() == After(sha, old(Contents()), cfg)
      ensures r == Refused(NameRequired) <==> cfg.desired.dictionaryName.None?
      ensures r == Refused(NotBuiltIn) <==>
        && cfg.desired.dictionaryName.Some? && old(meta).None? && old(dict).None?
        && cfg.desired.dictionaryName.value !in cfg.builtIn
      ensures r == Refused(CannotRehydrate) || r == Refused(BuiltInDiffers) <==>
        && cfg.desired.dictionaryName.Some? && old(dict).None?
        && old(meta).Some? && old(meta).value.Parsed? && !Rehydrates(sha, old(meta).value.meta, cfg)
    {
      if cfg.desired.dictionaryName.None? {
        return Refused(NameRequired);
      }
      var name := cfg.desired.dictionaryName.value;
      match (meta, dict) {
        case (None, None) =>
          if name !in cfg.builtIn {
            return Refused(NotBuiltIn);
          }
          dict := Some(cfg.builtIn[name]);
        case (None, Some(_)) =>
        case (Some(Garbled), None) =>
          return Refused(Unparseable);
        case (Some(Parsed(saved)), None) =>
          var savedName := OrEmpty(saved.compression.dictionaryName);
          if savedName !in cfg.builtIn {
            return Refused(CannotRehydrate);
          }
          if sha(cfg.builtIn[savedName]) != OrEmpty(saved.compression.dictionarySha) {
            return Refused(BuiltInDiffers);
          }
          dict := Some(cfg.builtIn[savedName]);
          r := ValidateExisting(cfg);
          return;
        case (Some(_), Some(_)) =>
          r := ValidateExisting(cfg);
          return;
      }
      meta := Some(Parsed(Fresh(cfg, sha(dict.value))));
      r := Booted;
    }
  }
}
