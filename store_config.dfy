/**
 * src/tracker-store/tracker-config.c: the store's TrackerConfig object. Its
 * private record holds five settings and a GKeyFile; the settings are filled
 * from the key file (after missing keys are given their defaults), written
 * back to it by save, and reloaded when the config file changes.
 *
 * The GKeyFile is a map from (group, key) to the text stored there. Integers
 * are written as g_strdup_printf ("%d") writes them and read back by the
 * decimal parser of TypeUtils; booleans are written as "true"/"false".
 * Reading and writing the file on disk are parameters and outcomes.
 */
module StoreConfig {
  import opened Ints
  import opened Wrappers
  import TypeUtils

  const GROUP_GENERAL: string := "General"
  const GROUP_INDEXING: string := "Indexing"
  const GROUP_PERFORMANCE: string := "Performance"

  const DEFAULT_VERBOSITY: int32 := 0
  const DEFAULT_LOW_MEMORY_MODE: bool := false
  const DEFAULT_MIN_WORD_LENGTH: int32 := 3
  const DEFAULT_MAX_WORD_LENGTH: int32 := 30
  const DEFAULT_MAX_WORDS_TO_INDEX: int32 := 10000

  /** The text g_key_file_set_integer writes for each default. */
  const VERBOSITY_TEXT: string := "0"
  const MIN_WORD_LENGTH_TEXT: string := "3"
  const MAX_WORD_LENGTH_TEXT: string := "30"
  const MAX_WORDS_TO_INDEX_TEXT: string := "10000"

  const G_MAXINT: int32 := 0x7FFF_FFFF

  /** A key of the key file: its group and its name. */
  datatype Key = Key(group: string, name: string)

  type KeyFile = map<Key, string>

  /** The four integer properties. */
  datatype IntProperty = Verbosity | MinWordLength | MaxWordLength | MaxWordsToIndex

  /** TrackerConfigPrivate without the file, monitor and key file. */
  datatype Settings = Settings(
    verbosity: int32,
    lowMemoryMode: bool,
    minWordLength: int32,
    maxWordLength: int32,
    maxWordsToIndex: int32)

  function IntKey(p: IntProperty): Key {
    match p
    case Verbosity => Key(GROUP_GENERAL, "Verbosity")
    case MinWordLength => Key(GROUP_INDEXING, "MinWordLength")
    case MaxWordLength => Key(GROUP_INDEXING, "MaxWordLength")
    case MaxWordsToIndex => Key(GROUP_PERFORMANCE, "MaxWordsToIndex")
  }

  const LOW_MEMORY_KEY: Key := Key(GROUP_GENERAL, "LowMemoryMode")

  /** The five keys are pairwise different. */
  lemma KeysDistinct(p: IntProperty, q: IntProperty)
    ensures IntKey(p) == IntKey(q) <==> p == q
    ensures IntKey(p) != LOW_MEMORY_KEY
  {
  }

  function IntField(s: Settings, p: IntProperty): int32 {
    match p
    case Verbosity => s.verbosity
    case MinWordLength => s.minWordLength
    case MaxWordLength => s.maxWordLength
    case MaxWordsToIndex => s.maxWordsToIndex
  }

  function WithIntField(s: Settings, p: IntProperty, v: int32): Settings {
    match p
    case Verbosity => s.(verbosity := v)
    case MinWordLength => s.(minWordLength := v)
    case MaxWordLength => s.(maxWordLength := v)
    case MaxWordsToIndex => s.(maxWordsToIndex := v)
  }

  /** Setting one property changes exactly that property. */
  lemma WithIntFieldIndependent(s: Settings, p: IntProperty, v: int32, q: IntProperty)
    ensures IntField(WithIntField(s, p, v), q) == if p == q then v else IntField(s, q)
    ensures WithIntField(s, p, v).lowMemoryMode == s.lowMemoryMode
  {
  }

  function DefaultInt(p: IntProperty): int32 {
    match p
    case Verbosity => DEFAULT_VERBOSITY
    case MinWordLength => DEFAULT_MIN_WORD_LENGTH
    case MaxWordLength => DEFAULT_MAX_WORD_LENGTH
    case MaxWordsToIndex => DEFAULT_MAX_WORDS_TO_INDEX
  }

  function DefaultSettings(): Settings {
    Settings(DEFAULT_VERBOSITY, DEFAULT_LOW_MEMORY_MODE, DEFAULT_MIN_WORD_LENGTH,
             DEFAULT_MAX_WORD_LENGTH, DEFAULT_MAX_WORDS_TO_INDEX)
  }

  /** The range each integer property's GParamSpec declares. */
  predicate InRange(p: IntProperty, v: int32) {
    match p
    case Verbosity => 0 <= v <= 3
    case MinWordLength => 0 <= v <= 30
    case MaxWordLength => 0 <= v <= 200
    case MaxWordsToIndex => 0 <= v <= G_MAXINT
  }

  predicate AllInRange(s: Settings) {
    forall p: IntProperty :: InRange(p, IntField(s, p))
  }

  /** Every default lies in its property's declared range. */
  lemma DefaultsInRange()
    ensures forall p: IntProperty :: InRange(p, DefaultInt(p)) && IntField(DefaultSettings(), p) == DefaultInt(p)
    ensures AllInRange(DefaultSettings())
  {
    forall p: IntProperty ensures InRange(p, DefaultInt(p)) && IntField(DefaultSettings(), p) == DefaultInt(p) {
      match p
      case Verbosity =>
      case MinWordLength =>
      case MaxWordLength =>
      case MaxWordsToIndex =>
    }
  }

  /** g_key_file_set_boolean's text. */
  function BooleanText(b: bool): string {
    if b then "true" else "false"
  }

  /** g_key_file_get_integer: an error for a missing key, text that is not a number, or a number beyond a gint. */
  function ReadInteger(kf: KeyFile, k: Key): (r: Result<int32, string>)
    ensures r.Ok? <==> k in kf && TypeUtils.ParseDecimal(kf[k]).Some?
                       && -0x8000_0000 <= TypeUtils.ParseDecimal(kf[k]).value < 0x8000_0000
    ensures r.Ok? ==> TypeUtils.ParseDecimal(kf[k]) == Some(r.value as int)
  {
    if k !in kf then Err("key not found")
    else
      var n := TypeUtils.ParseDecimal(kf[k]);
      if n.None? then Err("value is not an integer")
      else if n.value < -0x8000_0000 || n.value >= 0x8000_0000 then Err("value out of range")
      else Ok(n.value as int32)
  }

  /** g_key_file_get_boolean: "true" or "1", "false" or "0"; anything else or a missing key is an error. */
  function ReadBoolean(kf: KeyFile, k: Key): (r: Result<bool, string>)
    ensures r.Ok? <==> k in kf && kf[k] in {"true", "1", "false", "0"}
    ensures r.Ok? ==> (r.value <==> kf[k] in {"true", "1"})
  {
    if k !in kf then Err("key not found")
    else if kf[k] == "true" || kf[k] == "1" then Ok(true)
    else if kf[k] == "false" || kf[k] == "0" then Ok(false)
    else Err("value is not a boolean")
  }

  /** Integers and booleans read back what the key file's setters wrote. */
  lemma ReadWritten(kf: KeyFile, k: Key, v: int32, b: bool)
    ensures ReadInteger(kf[k := TypeUtils.IntToString(v)], k) == Ok(v)
    ensures ReadBoolean(kf[k := BooleanText(b)], k) == Ok(b)
  {
  }

  /** A key holding the rendering of `v` reads back as `v`. */
  lemma ReadRendered(kf: KeyFile, k: Key, v: int32)
    requires k in kf && kf[k] == TypeUtils.IntToString(v)
    ensures ReadInteger(kf, k) == Ok(v)
  {
  }

  /** One `if (overwrite || !g_key_file_has_key (...))` block of config_create_with_defaults. */
  function DefaultEntry(kf: KeyFile, k: Key, text: string, overwrite: bool): (r: KeyFile)
    ensures r.Keys == kf.Keys + {k}
    ensures forall j :: j in kf && j != k ==> r[j] == kf[j]
    ensures !overwrite && k in kf ==> r[k] == kf[k]
    ensures overwrite || k !in kf ==> r[k] == text
  {
    if overwrite || k !in kf then kf[k := text] else kf
  }

  /** The key file after config_create_with_defaults. */
  function WithDefaults(kf: KeyFile, overwrite: bool): KeyFile {
    var kf1 := DefaultEntry(kf, IntKey(Verbosity), VERBOSITY_TEXT, overwrite);
    var kf2 := DefaultEntry(kf1, LOW_MEMORY_KEY, BooleanText(DEFAULT_LOW_MEMORY_MODE), overwrite);
    var kf3 := DefaultEntry(kf2, IntKey(MinWordLength), MIN_WORD_LENGTH_TEXT, overwrite);
    var kf4 := DefaultEntry(kf3, IntKey(MaxWordLength), MAX_WORD_LENGTH_TEXT, overwrite);
    DefaultEntry(kf4, IntKey(MaxWordsToIndex), MAX_WORDS_TO_INDEX_TEXT, overwrite)
  }

  /** The default texts are the decimal renderings of the defaults. */
  lemma DefaultTextsRendered()
    ensures TypeUtils.IntToString(DEFAULT_VERBOSITY) == VERBOSITY_TEXT
    ensures TypeUtils.IntToString(DEFAULT_MIN_WORD_LENGTH) == MIN_WORD_LENGTH_TEXT
    ensures TypeUtils.IntToString(DEFAULT_MAX_WORD_LENGTH) == MAX_WORD_LENGTH_TEXT
    ensures TypeUtils.IntToString(DEFAULT_MAX_WORDS_TO_INDEX) == MAX_WORDS_TO_INDEX_TEXT
  {
  }

  /** The text config_create_with_defaults writes for each integer property. */
  lemma DefaultTexts(kf: KeyFile, p: IntProperty)
    ensures WithDefaults(kf, true)[IntKey(p)] == TypeUtils.IntToString(DefaultInt(p))
    ensures WithDefaults(kf, true)[LOW_MEMORY_KEY] == BooleanText(DEFAULT_LOW_MEMORY_MODE)
  {
    DefaultTextsRendered();
    KeysDistinct(p, Verbosity);
    KeysDistinct(p, MinWordLength);
    KeysDistinct(p, MaxWordLength);
    KeysDistinct(p, MaxWordsToIndex);
  }

  /** Defaults fill in the five keys and add no other. */
  lemma WithDefaultsKeys(kf: KeyFile, overwrite: bool)
    ensures WithDefaults(kf, overwrite).Keys == kf.Keys + {IntKey(Verbosity), LOW_MEMORY_KEY,
      IntKey(MinWordLength), IntKey(MaxWordLength), IntKey(MaxWordsToIndex)}
    ensures forall p: IntProperty :: IntKey(p) in WithDefaults(kf, overwrite)
  {
    var kf1 := DefaultEntry(kf, IntKey(Verbosity), VERBOSITY_TEXT, overwrite);
    var kf2 := DefaultEntry(kf1, LOW_MEMORY_KEY, BooleanText(DEFAULT_LOW_MEMORY_MODE), overwrite);
    var kf3 := DefaultEntry(kf2, IntKey(MinWordLength), MIN_WORD_LENGTH_TEXT, overwrite);
    var kf4 := DefaultEntry(kf3, IntKey(MaxWordLength), MAX_WORD_LENGTH_TEXT, overwrite);
    var r := DefaultEntry(kf4, IntKey(MaxWordsToIndex), MAX_WORDS_TO_INDEX_TEXT, overwrite);
    assert r == WithDefaults(kf, overwrite);
    ChainKeys(kf.Keys, kf1.Keys, kf2.Keys, kf3.Keys, kf4.Keys, r.Keys);
  }

  /** The key sets along the five steps of config_create_with_defaults. */
  lemma ChainKeys(k0: set<Key>, k1: set<Key>, k2: set<Key>, k3: set<Key>, k4: set<Key>, k5: set<Key>)
    requires k1 == k0 + {IntKey(Verbosity)}
    requires k2 == k1 + {LOW_MEMORY_KEY}
    requires k3 == k2 + {IntKey(MinWordLength)}
    requires k4 == k3 + {IntKey(MaxWordLength)}
    requires k5 == k4 + {IntKey(MaxWordsToIndex)}
    ensures k5 == k0 + {IntKey(Verbosity), LOW_MEMORY_KEY, IntKey(MinWordLength), IntKey(MaxWordLength),
                        IntKey(MaxWordsToIndex)}
    ensures forall p: IntProperty :: IntKey(p) in k5
  {
    forall p: IntProperty ensures IntKey(p) in k5 {
      match p
      case Verbosity =>
      case MinWordLength =>
      case MaxWordLength =>
      case MaxWordsToIndex =>
    }
  }

  /** Other keys are never touched; without `overwrite` an existing key keeps its text. */
  lemma WithDefaultsPreserves(kf: KeyFile, overwrite: bool, k: Key)
    requires k in kf
    requires !overwrite || (k != LOW_MEMORY_KEY && forall p: IntProperty :: k != IntKey(p))
    ensures WithDefaults(kf, overwrite)[k] == kf[k]
  {
    var kf1 := DefaultEntry(kf, IntKey(Verbosity), VERBOSITY_TEXT, overwrite);
    var kf2 := DefaultEntry(kf1, LOW_MEMORY_KEY, BooleanText(DEFAULT_LOW_MEMORY_MODE), overwrite);
    var kf3 := DefaultEntry(kf2, IntKey(MinWordLength), MIN_WORD_LENGTH_TEXT, overwrite);
    var kf4 := DefaultEntry(kf3, IntKey(MaxWordLength), MAX_WORD_LENGTH_TEXT, overwrite);
    assert kf1[k] == kf[k];
    assert kf2[k] == kf1[k];
    assert kf3[k] == kf2[k];
    assert kf4[k] == kf3[k];
  }

  /** Filling in defaults without overwriting twice is doing it once. */
  lemma WithDefaultsIdempotent(kf: KeyFile, overwrite: bool)
    ensures WithDefaults(WithDefaults(kf, overwrite), false) == WithDefaults(kf, overwrite)
  {
    var once := WithDefaults(kf, overwrite);
    WithDefaultsKeys(kf, overwrite);
    WithDefaultsKeys(once, false);
    forall k | k in once ensures WithDefaults(once, false)[k] == once[k] {
      WithDefaultsPreserves(once, false, k);
    }
  }

  /** The settings after config_load_int of one property: only a successful read of an in-range value is applied. */
  function LoadedInt(s: Settings, kf: KeyFile, p: IntProperty): (r: Settings)
  {
    var v := ReadInteger(kf, IntKey(p));
    if v.Ok? && InRange(p, v.value) then WithIntField(s, p, v.value) else s
  }

  /** The settings after config_load_boolean of the low-memory flag. */
  function LoadedBoolean(s: Settings, kf: KeyFile): (r: Settings) {
    var v := ReadBoolean(kf, LOW_MEMORY_KEY);
    if v.Ok? then s.(lowMemoryMode := v.value) else s
  }

  /** The five loads at the end of config_load, in its order. */
  function Loaded(s: Settings, kf: KeyFile): Settings {
    var s1 := LoadedInt(s, kf, Verbosity);
    var s2 := LoadedBoolean(s1, kf);
    var s3 := LoadedInt(s2, kf, MinWordLength);
    var s4 := LoadedInt(s3, kf, MaxWordLength);
    LoadedInt(s4, kf, MaxWordsToIndex)
  }

  /** A load changes a property exactly when its key reads without error (and, for integers, in range). */
  lemma LoadedIntEffect(s: Settings, kf: KeyFile, p: IntProperty, q: IntProperty)
    ensures var v := ReadInteger(kf, IntKey(p));
      IntField(LoadedInt(s, kf, p), q) ==
        if p == q && v.Ok? && InRange(p, v.value) then v.value else IntField(s, q)
    ensures LoadedInt(s, kf, p).lowMemoryMode == s.lowMemoryMode
  {
    var v := ReadInteger(kf, IntKey(p));
    if v.Ok? && InRange(p, v.value) {
      WithIntFieldIndependent(s, p, v.value, q);
    }
  }

  /** Loading a key file whose five keys hold the defaults yields the default settings, whatever was set before. */
  lemma LoadDefaults(s: Settings, kf: KeyFile)
    ensures Loaded(s, WithDefaults(kf, true)) == DefaultSettings()
  {
    var d := WithDefaults(kf, true);
    DefaultsInRange();
    forall p: IntProperty ensures ReadInteger(d, IntKey(p)) == Ok(IntField(DefaultSettings(), p)) {
      DefaultTexts(kf, p);
      WithDefaultsKeys(kf, true);
      ReadRendered(d, IntKey(p), IntField(DefaultSettings(), p));
    }
    DefaultTexts(kf, Verbosity);
    LoadedAllRead(s, d, DefaultSettings());
  }

  /** When every key reads back the corresponding setting of `target`, all in range, loading yields `target`. */
  lemma LoadedAllRead(prior: Settings, kf: KeyFile, target: Settings)
    requires forall p: IntProperty :: ReadInteger(kf, IntKey(p)) == Ok(IntField(target, p))
    requires AllInRange(target)
    requires ReadBoolean(kf, LOW_MEMORY_KEY) == Ok(target.lowMemoryMode)
    ensures Loaded(prior, kf) == target
  {
    var s1 := LoadedInt(prior, kf, Verbosity);
    assert s1 == prior.(verbosity := target.verbosity) by {
      assert InRange(Verbosity, IntField(target, Verbosity));
    }
    var s2 := LoadedBoolean(s1, kf);
    var s3 := LoadedInt(s2, kf, MinWordLength);
    assert s3 == s2.(minWordLength := target.minWordLength) by {
      assert InRange(MinWordLength, IntField(target, MinWordLength));
    }
    var s4 := LoadedInt(s3, kf, MaxWordLength);
    assert s4 == s3.(maxWordLength := target.maxWordLength) by {
      assert InRange(MaxWordLength, IntField(target, MaxWordLength));
    }
    assert LoadedInt(s4, kf, MaxWordsToIndex) == s4.(maxWordsToIndex := target.maxWordsToIndex) by {
      assert InRange(MaxWordsToIndex, IntField(target, MaxWordsToIndex));
    }
  }

  /** config_save's five copies: each property written under its own key. */
  function Saved(kf: KeyFile, s: Settings): KeyFile {
    kf[IntKey(Verbosity) := TypeUtils.IntToString(s.verbosity)]
      [LOW_MEMORY_KEY := BooleanText(s.lowMemoryMode)]
      [IntKey(MinWordLength) := TypeUtils.IntToString(s.minWordLength)]
      [IntKey(MaxWordLength) := TypeUtils.IntToString(s.maxWordLength)]
      [IntKey(MaxWordsToIndex) := TypeUtils.IntToString(s.maxWordsToIndex)]
  }

  /** Saving writes each property's text under its key and leaves every other key alone. */
  lemma SavedKeys(kf: KeyFile, s: Settings, p: IntProperty)
    ensures Saved(kf, s)[IntKey(p)] == TypeUtils.IntToString(IntField(s, p))
    ensures Saved(kf, s)[LOW_MEMORY_KEY] == BooleanText(s.lowMemoryMode)
    ensures forall k :: k in kf && k != LOW_MEMORY_KEY && (forall q: IntProperty :: k != IntKey(q))
              ==> Saved(kf, s)[k] == kf[k]
  {
    SavedIntKey(kf, s, p);
    SavedLowMemoryKey(kf, s);
    SavedOtherKeys(kf, s);
  }

  lemma SavedIntKey(kf: KeyFile, s: Settings, p: IntProperty)
    ensures Saved(kf, s)[IntKey(p)] == TypeUtils.IntToString(IntField(s, p))
  {
    KeysDistinct(p, Verbosity);
    KeysDistinct(p, MinWordLength);
    KeysDistinct(p, MaxWordLength);
    KeysDistinct(p, MaxWordsToIndex);
  }

  lemma SavedLowMemoryKey(kf: KeyFile, s: Settings)
    ensures Saved(kf, s)[LOW_MEMORY_KEY] == BooleanText(s.lowMemoryMode)
  {
    KeysDistinct(MinWordLength, Verbosity);
    KeysDistinct(MaxWordLength, Verbosity);
    KeysDistinct(MaxWordsToIndex, Verbosity);
  }

  lemma SavedOtherKeys(kf: KeyFile, s: Settings)
    ensures forall k :: k in kf && k != LOW_MEMORY_KEY && (forall q: IntProperty :: k != IntKey(q))
              ==> Saved(kf, s)[k] == kf[k]
  {
  }

  /**
   * Round trip: loading what was saved restores the settings, from any
   * prior settings, provided every integer lies in its declared range.
   */
  lemma SaveLoadRoundTrip(kf: KeyFile, s: Settings, prior: Settings)
    requires AllInRange(s)
    ensures Loaded(prior, Saved(kf, s)) == s
  {
    var saved := Saved(kf, s);
    forall p: IntProperty ensures ReadInteger(saved, IntKey(p)) == Ok(IntField(s, p)) {
      SavedKeys(kf, s, p);
    }
    SavedKeys(kf, s, Verbosity);
    LoadedAllRead(prior, saved, s);
  }

  /**
   * The direct setters do not check the range, so an out-of-range value is
   * saved but a reload does not restore it: the prior value survives.
   */
  lemma SaveLoadOutOfRange(kf: KeyFile, s: Settings, prior: Settings, p: IntProperty)
    requires !InRange(p, IntField(s, p))
    ensures IntField(Loaded(prior, Saved(kf, s)), p) == IntField(prior, p)
  {
    var saved := Saved(kf, s);
    SavedKeys(kf, s, p);
    assert ReadInteger(saved, IntKey(p)) == Ok(IntField(s, p));
    var s1 := LoadedInt(prior, saved, Verbosity);
    var s2 := LoadedBoolean(s1, saved);
    var s3 := LoadedInt(s2, saved, MinWordLength);
    var s4 := LoadedInt(s3, saved, MaxWordLength);
    LoadedIntEffect(prior, saved, Verbosity, p);
    assert IntField(s2, p) == IntField(s1, p);
    LoadedIntEffect(s2, saved, MinWordLength, p);
    LoadedIntEffect(s3, saved, MaxWordLength, p);
    LoadedIntEffect(s4, saved, MaxWordsToIndex, p);
  }

  /** GFileMonitorEvent. */
  datatype FileMonitorEvent = Changed | ChangesDoneHint | Deleted | Created | AttributeChanged | PreUnmount | Unmounted

  /** The events config_changed_cb reloads on. */
  predicate TriggersReload(e: FileMonitorEvent) {
    e == Changed || e == ChangesDoneHint
  }

  class Config {
    var verbosity: int32
    var lowMemoryMode: bool
    var minWordLength: int32
    var maxWordLength: int32
    var maxWordsToIndex: int32
    var keyFile: KeyFile

    ghost function Current(): Settings
      reads this
    {
      Settings(verbosity, lowMemoryMode, minWordLength, maxWordLength, maxWordsToIndex)
    }

    /** g_object_new: every property gets its default (G_PARAM_CONSTRUCT) and the key file is empty. */
    constructor ()
      ensures Current() == DefaultSettings()
      ensures keyFile == map[]
    {
      verbosity := DEFAULT_VERBOSITY;
      lowMemoryMode := DEFAULT_LOW_MEMORY_MODE;
      minWordLength := DEFAULT_MIN_WORD_LENGTH;
      maxWordLength := DEFAULT_MAX_WORD_LENGTH;
      maxWordsToIndex := DEFAULT_MAX_WORDS_TO_INDEX;
      keyFile := map[];
    }

    method GetVerbosity() returns (v: int32)
      ensures v == Current().verbosity
    {
      v := verbosity;
    }

    method GetLowMemoryMode() returns (v: bool)
      ensures v == Current().lowMemoryMode
    {
      v := lowMemoryMode;
    }

    method GetMinWordLength() returns (v: int32)
      ensures v == Current().minWordLength
    {
      v := minWordLength;
    }

    method GetMaxWordLength() returns (v: int32)
      ensures v == Current().maxWordLength
    {
      v := maxWordLength;
    }

    method GetMaxWordsToIndex() returns (v: int32)
      ensures v == Current().maxWordsToIndex
    {
      v := maxWordsToIndex;
    }

    /** tracker_config_set_verbosity: config_int_validate always accepts, so the value is stored. */
    method SetVerbosity(value: int32)
      modifies this
      ensures Current() == old(Current()).(verbosity := value)
      ensures keyFile == old(keyFile)
    {
      verbosity := value;
    }

    method SetLowMemoryMode(value: bool)
      modifies this
      ensures Current() == old(Current()).(lowMemoryMode := value)
      ensures keyFile == old(keyFile)
    {
      lowMemoryMode := value;
    }

    method SetMinWordLength(value: int32)
      modifies this
      ensures Current() == old(Current()).(minWordLength := value)
      ensures keyFile == old(keyFile)
    {
      minWordLength := value;
    }

    method SetMaxWordLength(value: int32)
      modifies this
      ensures Current() == old(Current()).(maxWordLength := value)
      ensures keyFile == old(keyFile)
    {
      maxWordLength := value;
    }

    method SetMaxWordsToIndex(value: int32)
      modifies this
      ensures Current() == old(Current()).(maxWordsToIndex := value)
      ensures keyFile == old(keyFile)
    {
      maxWordsToIndex := value;
    }

    /**
     * g_object_set on an integer property: GObject refuses a value outside
     * the property's range, otherwise it calls the setter (config_set_property).
     */
    method SetIntProperty(p: IntProperty, value: int32)
      modifies this
      ensures Current() == if InRange(p, value) then WithIntField(old(Current()), p, value) else old(Current())
      ensures keyFile == old(keyFile)
    {
      if !InRange(p, value) {
        return;
      }
      match p
      case Verbosity => SetVerbosity(value);
      case MinWordLength => SetMinWordLength(value);
      case MaxWordLength => SetMaxWordLength(value);
      case MaxWordsToIndex => SetMaxWordsToIndex(value);
    }

    /** One block of config_create_with_defaults: write the default unless the key is there and `overwrite` is unset. */
    method SetDefault(k: Key, text: string, overwrite: bool)
      modifies this
      ensures keyFile == DefaultEntry(old(keyFile), k, text, overwrite)
      ensures Current() == old(Current())
    {
      if overwrite || k !in keyFile {
        keyFile := keyFile[k := text];
      }
    }

    /** config_create_with_defaults on the object's key file. */
    method CreateWithDefaults(overwrite: bool)
      modifies this
      ensures keyFile == WithDefaults(old(keyFile), overwrite)
      ensures Current() == old(Current())
    {
      SetDefault(IntKey(Verbosity), VERBOSITY_TEXT, overwrite);
      SetDefault(LOW_MEMORY_KEY, BooleanText(DEFAULT_LOW_MEMORY_MODE), overwrite);
      SetDefault(IntKey(MinWordLength), MIN_WORD_LENGTH_TEXT, overwrite);
      SetDefault(IntKey(MaxWordLength), MAX_WORD_LENGTH_TEXT, overwrite);
      SetDefault(IntKey(MaxWordsToIndex), MAX_WORDS_TO_INDEX_TEXT, overwrite);
    }

    /** config_load_int: the property changes only when the key reads as an in-range gint. */
    method LoadInt(p: IntProperty)
      modifies this
      ensures Current() == LoadedInt(old(Current()), keyFile, p)
      ensures keyFile == old(keyFile)
    {
      var value := ReadInteger(keyFile, IntKey(p));
      if value.Ok? {
        SetIntProperty(p, value.value);
      }
    }

    /** config_load_boolean: the flag changes only when the key reads as a boolean. */
    method LoadBoolean()
      modifies this
      ensures Current() == LoadedBoolean(old(Current()), keyFile)
      ensures keyFile == old(keyFile)
    {
      var value := ReadBoolean(keyFile, LOW_MEMORY_KEY);
      if value.Ok? {
        SetLowMemoryMode(value.value);
      }
    }

    /**
     * config_load after the config directory exists: the file's contents
     * replace the key file when it could be read (None otherwise), missing
     * keys get their defaults, and the five properties are read.
     */
    method Load(fileContents: Option<KeyFile>)
      modifies this
      ensures keyFile == WithDefaults(if fileContents.Some? then fileContents.value else old(keyFile), false)
      ensures Current() == Loaded(old(Current()), keyFile)
    {
      if fileContents.Some? {
        keyFile := fileContents.value;
      }
      CreateWithDefaults(false);
      LoadInt(Verbosity);
      LoadBoolean();
      LoadInt(MinWordLength);
      LoadInt(MaxWordLength);
      LoadInt(MaxWordsToIndex);
    }

    /**
     * config_save: copy the five properties into the key file; the result is
     * the outcome of writing it to disk.
     */
    method Save(written: bool) returns (ok: bool)
      modifies this
      ensures ok == written
      ensures keyFile == Saved(old(keyFile), old(Current()))
      ensures Current() == old(Current())
    {
      keyFile := keyFile[IntKey(Verbosity) := TypeUtils.IntToString(verbosity)];
      keyFile := keyFile[LOW_MEMORY_KEY := BooleanText(lowMemoryMode)];
      keyFile := keyFile[IntKey(MinWordLength) := TypeUtils.IntToString(minWordLength)];
      keyFile := keyFile[IntKey(MaxWordLength) := TypeUtils.IntToString(maxWordLength)];
      keyFile := keyFile[IntKey(MaxWordsToIndex) := TypeUtils.IntToString(maxWordsToIndex)];
      ok := written;
    }

    /** config_changed_cb: reload on CHANGED and CHANGES_DONE_HINT, ignore every other event. */
    method OnFileChanged(event: FileMonitorEvent, fileContents: Option<KeyFile>)
      modifies this
      ensures TriggersReload(event) ==>
        keyFile == WithDefaults(if fileContents.Some? then fileContents.value else old(keyFile), false)
        && Current() == Loaded(old(Current()), keyFile)
      ensures !TriggersReload(event) ==> keyFile == old(keyFile) && Current() == old(Current())
    {
      match event
      case Changed => Load(fileContents);
      case ChangesDoneHint => Load(fileContents);
      case _ =>
    }
  }

  /** tracker_config_new: construct, then load; with no readable file the settings are the defaults. */
  method New(fileContents: Option<KeyFile>) returns (config: Config)
    ensures fresh(config)
    ensures config.keyFile == WithDefaults(if fileContents.Some? then fileContents.value else map[], false)
    ensures config.Current() == Loaded(DefaultSettings(), config.keyFile)
    ensures fileContents.None? ==> config.Current() == DefaultSettings()
  {
    config := new Config();
    config.Load(fileContents);
    if fileContents.None? {
      LoadFreshDefaults(config.keyFile);
    }
  }

  /** Loading the defaults written into an empty key file yields the default settings. */
  lemma LoadFreshDefaults(kf: KeyFile)
    requires kf == WithDefaults(map[], false)
    ensures Loaded(DefaultSettings(), kf) == DefaultSettings()
  {
    var empty: KeyFile := map[];
    OverwriteIrrelevantOnEmpty();
    LoadDefaults(DefaultSettings(), empty);
  }

  /** On an empty key file every key is missing, so `overwrite` makes no difference. */
  lemma OverwriteIrrelevantOnEmpty()
    ensures WithDefaults(map[], false) == WithDefaults(map[], true)
  {
    var e: KeyFile := map[];
    KeysDistinct(Verbosity, MinWordLength);
    KeysDistinct(Verbosity, MaxWordLength);
    KeysDistinct(Verbosity, MaxWordsToIndex);
    KeysDistinct(MinWordLength, MaxWordLength);
    KeysDistinct(MinWordLength, MaxWordsToIndex);
    KeysDistinct(MaxWordLength, MaxWordsToIndex);
    var kf1 := DefaultEntry(e, IntKey(Verbosity), VERBOSITY_TEXT, true);
    DefaultEntryAbsent(e, IntKey(Verbosity), VERBOSITY_TEXT);
    var kf2 := DefaultEntry(kf1, LOW_MEMORY_KEY, BooleanText(DEFAULT_LOW_MEMORY_MODE), true);
    DefaultEntryAbsent(kf1, LOW_MEMORY_KEY, BooleanText(DEFAULT_LOW_MEMORY_MODE));
    var kf3 := DefaultEntry(kf2, IntKey(MinWordLength), MIN_WORD_LENGTH_TEXT, true);
    DefaultEntryAbsent(kf2, IntKey(MinWordLength), MIN_WORD_LENGTH_TEXT);
    var kf4 := DefaultEntry(kf3, IntKey(MaxWordLength), MAX_WORD_LENGTH_TEXT, true);
    DefaultEntryAbsent(kf3, IntKey(MaxWordLength), MAX_WORD_LENGTH_TEXT);
    DefaultEntryAbsent(kf4, IntKey(MaxWordsToIndex), MAX_WORDS_TO_INDEX_TEXT);
  }

  /** For a missing key the entry is written whether or not `overwrite` is set. */
  lemma DefaultEntryAbsent(kf: KeyFile, k: Key, text: string)
    requires k !in kf
    ensures DefaultEntry(kf, k, text, false) == DefaultEntry(kf, k, text, true)
  {
  }
}
