/**
 * ConfigManager: the application settings, their defaults, load with
 * per-field validation from config.json, save, and the setters.
 */
module Config {
  import opened Json

  /** The seven persisted settings; the doubles are modelled as reals. */
  datatype Settings = Settings(
    lastFolder: string,
    recursive: bool,
    slideDuration: real,
    transitionTime: real,
    randomOrder: bool,
    continuousLoop: bool,
    cacheMaxSizeMB: real)

  /** The values the constructor starts from; last_folder starts empty. */
  const Defaults := Settings("", true, 3.0, 0.5, false, true, 512.0)

  /** The thresholds load applies before accepting a stored number. */
  predicate AcceptsDuration(v: real) { v > 0.1 }
  predicate AcceptsTransition(v: real) { v >= 0.0 }
  predicate AcceptsCacheSize(v: real) { v >= 1.0 }

  /** Every number passes its threshold, so a saved copy loads back unchanged. */
  predicate Loadable(s: Settings) {
    AcceptsDuration(s.slideDuration) && AcceptsTransition(s.transitionTime) && AcceptsCacheSize(s.cacheMaxSizeMB)
  }

  /** A boolean field: replaced by the stored value only when its key is present. */
  function MergeBool(obj: map<string, Value>, key: string, prior: bool): bool {
    if key in obj then AsBool(obj[key]) else prior
  }

  /** A number field: replaced only when its key is present and the value passes the check. */
  function MergeNumber(obj: map<string, Value>, key: string, accepts: real -> bool, prior: real): real {
    if key in obj && accepts(AsDouble(obj[key])) then AsDouble(obj[key]) else prior
  }

  /** The settings after load() reads the object obj over the settings s. */
  function Merge(s: Settings, obj: map<string, Value>): Settings {
    Settings(
      AsString(Member(obj, "last_folder")),
      MergeBool(obj, "recursive", s.recursive),
      MergeNumber(obj, "slide_duration", AcceptsDuration, s.slideDuration),
      MergeNumber(obj, "transition_time", AcceptsTransition, s.transitionTime),
      MergeBool(obj, "random_order", s.randomOrder),
      MergeBool(obj, "continuous_loop", s.continuousLoop),
      MergeNumber(obj, "cache_max_size_mb", AcceptsCacheSize, s.cacheMaxSizeMB))
  }

  /** The object save() writes. */
  function Encode(s: Settings): map<string, Value> {
    map[
      "last_folder" := Str(s.lastFolder),
      "recursive" := Bool(s.recursive),
      "slide_duration" := Number(s.slideDuration),
      "transition_time" := Number(s.transitionTime),
      "random_order" := Bool(s.randomOrder),
      "continuous_loop" := Bool(s.continuousLoop),
      "cache_max_size_mb" := Number(s.cacheMaxSizeMB)]
  }

  /** The settings after load() over s from the file f. */
  function LoadFrom(s: Settings, f: File): Settings {
    if f.Unopenable? then s else Merge(s, RootObject(f.document))
  }

  /** The defaults are themselves loadable. */
  lemma DefaultsLoadable()
    ensures Loadable(Defaults)
  {
  }

  /**
   * An object without a key leaves that field as it was, except
   * last_folder, which becomes empty.
   */
  lemma MergeAbsentKeys(s: Settings, obj: map<string, Value>)
    ensures "last_folder" !in obj ==> Merge(s, obj).lastFolder == ""
    ensures "recursive" !in obj ==> Merge(s, obj).recursive == s.recursive
    ensures "slide_duration" !in obj ==> Merge(s, obj).slideDuration == s.slideDuration
    ensures "transition_time" !in obj ==> Merge(s, obj).transitionTime == s.transitionTime
    ensures "random_order" !in obj ==> Merge(s, obj).randomOrder == s.randomOrder
    ensures "continuous_loop" !in obj ==> Merge(s, obj).continuousLoop == s.continuousLoop
    ensures "cache_max_size_mb" !in obj ==> Merge(s, obj).cacheMaxSizeMB == s.cacheMaxSizeMB
  {
  }

  /** A stored number below its threshold is refused and the old value kept. */
  lemma MergeRefusesOutOfRange(s: Settings, obj: map<string, Value>, x: real)
    ensures x <= 0.1 ==> Merge(s, obj["slide_duration" := Number(x)]).slideDuration == s.slideDuration
    ensures x < 0.0 ==> Merge(s, obj["transition_time" := Number(x)]).transitionTime == s.transitionTime
    ensures x < 1.0 ==> Merge(s, obj["cache_max_size_mb" := Number(x)]).cacheMaxSizeMB == s.cacheMaxSizeMB
  {
  }

  /**
   * A transition_time that is present but not a number reads as 0, which
   * passes its check; a non-boolean flag reads as false.
   */
  lemma MergeWrongTypes(s: Settings, obj: map<string, Value>, v: Value)
    requires !v.Number? && !v.Bool?
    ensures Merge(s, obj["transition_time" := v]).transitionTime == 0.0
    ensures Merge(s, obj["slide_duration" := v]).slideDuration == s.slideDuration
    ensures Merge(s, obj["cache_max_size_mb" := v]).cacheMaxSizeMB == s.cacheMaxSizeMB
    ensures !Merge(s, obj["recursive" := v]).recursive
  {
  }

  /**
   * save() and then load() over any prior settings restores the folder and
   * the flags, and each number that passes its check; a number that fails
   * keeps the prior value.
   */
  lemma SaveLoadRoundTrip(s: Settings, prior: Settings)
    ensures var r := LoadFrom(prior, Written(Encode(s)));
      && r.lastFolder == s.lastFolder
      && r.recursive == s.recursive
      && r.randomOrder == s.randomOrder
      && r.continuousLoop == s.continuousLoop
      && r.slideDuration == (if AcceptsDuration(s.slideDuration) then s.slideDuration else prior.slideDuration)
      && r.transitionTime == (if AcceptsTransition(s.transitionTime) then s.transitionTime else prior.transitionTime)
      && r.cacheMaxSizeMB == (if AcceptsCacheSize(s.cacheMaxSizeMB) then s.cacheMaxSizeMB else prior.cacheMaxSizeMB)
  {
    var obj := Encode(s);
    assert RootObject(Written(obj).document) == obj;
    assert Member(obj, "last_folder") == Str(s.lastFolder);
  }

  /** In particular, loadable settings come back exactly, whatever was loaded before. */
  lemma SaveLoadRestores(s: Settings, prior: Settings)
    requires Loadable(s)
    ensures LoadFrom(prior, Written(Encode(s))) == s
  {
    SaveLoadRoundTrip(s, prior);
  }

  /** One flag of load(): taken from the object only when the key is present. */
  method ReadFlag(obj: map<string, Value>, key: string, prior: bool) returns (v: bool)
    ensures v == MergeBool(obj, key, prior)
  {
    v := prior;
    if key in obj {
      v := AsBool(obj[key]);
    }
  }

  /** One number of load(): taken only when the key is present and the value passes its check. */
  method ReadNumber(obj: map<string, Value>, key: string, accepts: real -> bool, prior: real) returns (v: real)
    ensures v == MergeNumber(obj, key, accepts, prior)
  {
    v := prior;
    if key in obj {
      var val := AsDouble(obj[key]);
      if accepts(val) {
        v := val;
      }
    }
  }

  /** The ConfigManager singleton: its fields and the config.json file it reads and writes. */
  class ConfigManager {
    var lastFolder: string
    var recursive: bool
    var slideDuration: real
    var transitionTime: real
    var randomOrder: bool
    var continuousLoop: bool
    var cacheMaxSizeMB: real
    /** config.json in the configuration directory. */
    var file: File

    function Current(): Settings
      reads this
    {
      Settings(lastFolder, recursive, slideDuration, transitionTime, randomOrder, continuousLoop, cacheMaxSizeMB)
    }

    /** The constructor: the defaults, and whatever config.json holds. */
    constructor (stored: File)
      ensures Current() == Defaults && file == stored
    {
      lastFolder := "";
      recursive := true;
      slideDuration := 3.0;
      transitionTime := 0.5;
      randomOrder := false;
      continuousLoop := true;
      cacheMaxSizeMB := 512.0;
      file := stored;
    }

    /** load(): nothing changes when the file cannot be opened. */
    method Load()
      modifies this
      ensures Current() == LoadFrom(old(Current()), file) && file == old(file)
    {
      if file.Unopenable? {
        return;
      }
      var obj := RootObject(file.document);
      var folder := AsString(Member(obj, "last_folder"));
      var rec := ReadFlag(obj, "recursive", recursive);
      var duration := ReadNumber(obj, "slide_duration", AcceptsDuration, slideDuration);
      var transition := ReadNumber(obj, "transition_time", AcceptsTransition, transitionTime);
      var random := ReadFlag(obj, "random_order", randomOrder);
      var loop := ReadFlag(obj, "continuous_loop", continuousLoop);
      var cacheMB := ReadNumber(obj, "cache_max_size_mb", AcceptsCacheSize, cacheMaxSizeMB);
      lastFolder, recursive, slideDuration, transitionTime, randomOrder, continuousLoop, cacheMaxSizeMB :=
        folder, rec, duration, transition, random, loop, cacheMB;
    }

    /** save(): the file is replaced only when it can be opened for writing. */
    method Save(writable: bool)
      modifies this
      ensures Current() == old(Current())
      ensures file == if writable then Written(Encode(Current())) else old(file)
    {
      if writable {
        file := Written(Encode(Current()));
      }
    }

    /** The setters store what they are given, without the checks load applies. */
    method SetLastFolder(folder: string)
      modifies this
      ensures Current() == old(Current()).(lastFolder := folder) && file == old(file)
    {
      lastFolder := folder;
    }

    method SetRecursive(value: bool)
      modifies this
      ensures Current() == old(Current()).(recursive := value) && file == old(file)
    {
      recursive := value;
    }

    method SetSlideDuration(duration: real)
      modifies this
      ensures Current() == old(Current()).(slideDuration := duration) && file == old(file)
    {
      slideDuration := duration;
    }

    method SetTransitionTime(time: real)
      modifies this
      ensures Current() == old(Current()).(transitionTime := time) && file == old(file)
    {
      transitionTime := time;
    }

    method SetRandomOrder(value: bool)
      modifies this
      ensures Current() == old(Current()).(randomOrder := value) && file == old(file)
    {
      randomOrder := value;
    }

    method SetContinuousLoop(value: bool)
      modifies this
      ensures Current() == old(Current()).(continuousLoop := value) && file == old(file)
    {
      continuousLoop := value;
    }

    method SetCacheMaxSizeMB(size: real)
      modifies this
      ensures Current() == old(Current()).(cacheMaxSizeMB := size) && file == old(file)
    {
      cacheMaxSizeMB := size;
    }
  }
}
