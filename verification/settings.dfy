/**
 * The settings store (settings.cpp): a map from keys to strings, read and
 * written through typed getters and setters.  A getter that finds no usable
 * entry stores its default, and a setter reports whether the entry changed
 * so that its caller saves only then.  The backend write `save()` is
 * counted by a ghost counter; number parsing (`std::stoi`, `std::stof`, ...)
 * and formatting (`std::to_string`) are parameters.
 */
module Settings {
  import opened Wrappers

  type SettingsMap = map<string, string>

  /** What `map[key]` reads: an absent key reads as the empty string that `operator[]` inserts. */
  function Entry(m: SettingsMap, key: string): string
  {
    if key in m then m[key] else ""
  }

  /** `setAndCheck`: store `value` under `key`, reporting whether the entry it replaces was different. */
  function SetAndCheck(m: SettingsMap, key: string, value: string): (r: (bool, SettingsMap))
    ensures r.0 <==> Entry(m, key) != value
    ensures r.1 == m[key := value]
  {
    var different := Entry(m, key) != value;
    if different then (true, m[key := value]) else (false, m[key := Entry(m, key)])
  }

  function BoolText(b: bool): string
  {
    if b then "true" else "false"
  }

  /**
   * `mapBoolGet`: "true" and "false" parse; anything else (an absent key
   * included) is replaced by the default's text and the default returned.
   * Either way the entry afterwards is the text of the returned value.
   */
  function MapBoolGet(m: SettingsMap, key: string, bDefault: bool): (r: (bool, SettingsMap))
    ensures r.1 == m[key := BoolText(r.0)]
    ensures Entry(m, key) == "true" ==> r.0
    ensures Entry(m, key) == "false" ==> !r.0
    ensures Entry(m, key) != "true" && Entry(m, key) != "false" ==> r.0 == bDefault
  {
    var valstr := Entry(m, key);
    if valstr == "true" then (true, m[key := valstr])
    else if valstr == "false" then (false, m[key := valstr])
    else (bDefault, m[key := BoolText(bDefault)])
  }

  /** `mapBoolSet`. */
  function MapBoolSet(m: SettingsMap, key: string, value: bool): (r: (bool, SettingsMap))
    ensures r.0 <==> Entry(m, key) != BoolText(value)
    ensures key in r.1 && r.1[key] == BoolText(value)
  {
    SetAndCheck(m, key, BoolText(value))
  }

  /** A bool written with `mapBoolSet` reads back unchanged, and the read writes nothing new. */
  lemma BoolRoundTrip(m: SettingsMap, key: string, value: bool, bDefault: bool)
    ensures var m1 := MapBoolSet(m, key, value).1;
      MapBoolGet(m1, key, bDefault) == (value, m1)
  {
    var m1 := MapBoolSet(m, key, value).1;
    assert m1[key := BoolText(value)] == m1;
  }

  /**
   * `mapIntGet`, `mapU64Get`, `mapFloatGet` and `mapDoubleGet`, which differ
   * only in the parser and formatter: an entry that parses gives its value,
   * anything else is replaced by the default's text and the default returned.
   * When the formatter's output parses back, the entry afterwards always
   * parses to the returned value.
   */
  function MapValueGet<T>(m: SettingsMap, key: string, nDefault: T,
                          parse: string -> Option<T>, show: T -> string): (r: (T, SettingsMap))
    ensures parse(Entry(m, key)).Some? ==> r.0 == parse(Entry(m, key)).value && r.1 == m[key := Entry(m, key)]
    ensures parse(Entry(m, key)).None? ==> r.0 == nDefault && r.1 == m[key := show(nDefault)]
    ensures parse(show(nDefault)) == Some(nDefault) ==> key in r.1 && parse(r.1[key]) == Some(r.0)
  {
    var valstr := Entry(m, key);
    match parse(valstr)
    case Some(v) => (v, m[key := valstr])
    case None => (nDefault, m[key := show(nDefault)])
  }

  /** `mapIntSet`, `mapU64Set`, `mapFloatSet` and `mapDoubleSet`. */
  function MapValueSet<T>(m: SettingsMap, key: string, value: T, show: T -> string): (r: (bool, SettingsMap))
    ensures r.0 <==> Entry(m, key) != show(value)
    ensures key in r.1 && r.1[key] == show(value)
  {
    SetAndCheck(m, key, show(value))
  }

  /**
   * A number written with a setter reads back unchanged when its text parses
   * back to it (true of `std::to_string` with `std::stoi`, not of the
   * six-decimal `std::to_string` of a float).
   */
  lemma ValueRoundTrip<T>(m: SettingsMap, key: string, value: T, nDefault: T,
                          parse: string -> Option<T>, show: T -> string)
    requires parse(show(value)) == Some(value)
    ensures var m1 := MapValueSet(m, key, value, show).1;
      MapValueGet(m1, key, nDefault, parse, show) == (value, m1)
  {
    var m1 := MapValueSet(m, key, value, show).1;
    assert m1[key := Entry(m1, key)] == m1;
  }

  /** `mapStrGet`: a non-empty entry is returned as it is; otherwise the default is stored and returned. */
  function MapStrGet(m: SettingsMap, key: string, sDefault: string): (r: (string, SettingsMap))
    ensures Entry(m, key) != "" ==> r == (Entry(m, key), m)
    ensures Entry(m, key) == "" ==> r == (sDefault, m[key := sDefault])
  {
    var valstr := Entry(m, key);
    if valstr != "" then (valstr, m) else (sDefault, m[key := sDefault])
  }

  /** `mapStrSet`. */
  function MapStrSet(m: SettingsMap, key: string, value: string): (r: (bool, SettingsMap))
    ensures r.0 <==> Entry(m, key) != value
    ensures key in r.1 && r.1[key] == value
  {
    SetAndCheck(m, key, value)
  }

  /** A string written with `mapStrSet` reads back as itself, except that "" reads back as the default. */
  lemma StrRoundTrip(m: SettingsMap, key: string, value: string, sDefault: string)
    ensures MapStrGet(MapStrSet(m, key, value).1, key, sDefault).0 == if value == "" then sDefault else value
  {
  }

  const KeyShowAudioSettings: string := "show_audio_settings"
  const KeyPlotRatioSpectrogram: string := "plot_ratio_spectrogram"
  const KeyPlotRatioWaveform: string := "plot_ratio_waveform"
  const KeyPitchColor: string := "pitch_color"
  const KeyFormantColor: string := "formant_color"
  const KeyAudioHostApi: string := "audio_host_api"
  const KeyInputDeviceName: string := "audio_input_device_name"
  const KeyFftLength: string := "fft_length"
  const SuffixRed: string := "_r"
  const SuffixGreen: string := "_g"
  const SuffixBlue: string := "_b"

  class Settings {
    var entries: SettingsMap
    /** How many times `save()` wrote the map to the backend. */
    ghost var saves: nat
    /** `std::to_string` and `std::stof` for the float-valued entries. */
    const showReal: real -> string
    const parseReal: string -> Option<real>
    /** `std::to_string` and `std::stoi` for the int-valued entries. */
    const showInt: int -> string
    const parseInt: string -> Option<int>

    /** `Settings(backend)`: `loaded` is what the backend's read produced. */
    constructor (loaded: SettingsMap, showReal: real -> string, parseReal: string -> Option<real>,
                 showInt: int -> string, parseInt: string -> Option<int>)
      ensures entries == loaded && saves == 0
      ensures this.showReal == showReal && this.parseReal == parseReal
      ensures this.showInt == showInt && this.parseInt == parseInt
    {
      entries := loaded;
      saves := 0;
      this.showReal := showReal;
      this.parseReal := parseReal;
      this.showInt := showInt;
      this.parseInt := parseInt;
    }

    /** `showAudioSettings`: a bool getter, which saves on every call. */
    method ShowAudioSettings() returns (flag: bool)
      modifies this`entries, this`saves
      ensures (flag, entries) == MapBoolGet(old(entries), KeyShowAudioSettings, false)
      ensures saves == old(saves) + 1
    {
      var r := MapBoolGet(entries, KeyShowAudioSettings, false);
      flag, entries := r.0, r.1;
      saves := saves + 1;
    }

    /** `setShowAudioSettings`: writes and saves whether or not the entry changed. */
    method SetShowAudioSettings(flag: bool)
      modifies this`entries, this`saves
      ensures entries == old(entries)[KeyShowAudioSettings := BoolText(flag)]
      ensures saves == old(saves) + 1
    {
      entries := MapBoolSet(entries, KeyShowAudioSettings, flag).1;
      saves := saves + 1;
    }

    /** `spectrumPlotRatios`: two float getters with defaults 0.8 and 0.2, then one save. */
    method SpectrumPlotRatios() returns (spectrogram: real, waveform: real)
      modifies this`entries, this`saves
      ensures var (a, m1) := MapValueGet(old(entries), KeyPlotRatioSpectrogram, 0.8, parseReal, showReal);
        var (b, m2) := MapValueGet(m1, KeyPlotRatioWaveform, 0.2, parseReal, showReal);
        spectrogram == a && waveform == b && entries == m2
      ensures saves == old(saves) + 1
    {
      var r0 := MapValueGet(entries, KeyPlotRatioSpectrogram, 0.8, parseReal, showReal);
      spectrogram, entries := r0.0, r0.1;
      var r1 := MapValueGet(entries, KeyPlotRatioWaveform, 0.2, parseReal, showReal);
      waveform, entries := r1.0, r1.1;
      saves := saves + 1;
    }

    /**
     * `setSpectrumPlotRatios`: the two setters are joined by a
     * short-circuiting `||`, so when the first ratio changes the second is
     * not written at all; the entries is saved once if a write changed it.
     */
    method SetSpectrumPlotRatios(spectrogram: real, waveform: real)
      modifies this`entries, this`saves
      ensures Entry(old(entries), KeyPlotRatioSpectrogram) != showReal(spectrogram) ==>
        entries == old(entries)[KeyPlotRatioSpectrogram := showReal(spectrogram)] && saves == old(saves) + 1
      ensures Entry(old(entries), KeyPlotRatioSpectrogram) == showReal(spectrogram) ==>
        entries == old(entries)[KeyPlotRatioSpectrogram := showReal(spectrogram)][KeyPlotRatioWaveform := showReal(waveform)] &&
        saves == old(saves) + (if Entry(old(entries), KeyPlotRatioWaveform) != showReal(waveform) then 1 else 0)
    {
      var r0 := MapValueSet(entries, KeyPlotRatioSpectrogram, spectrogram, showReal);
      entries := r0.1;
      var changed := r0.0;
      if !changed {
        assert Entry(entries, KeyPlotRatioWaveform) == Entry(old(entries), KeyPlotRatioWaveform);
        var r1 := MapValueSet(entries, KeyPlotRatioWaveform, waveform, showReal);
        entries := r1.1;
        changed := r1.0;
      }
      if changed {
        saves := saves + 1;
      }
    }

    /** `fftLength`: an int getter with default 1024, which saves. */
    method FftLength() returns (nfft: int)
      modifies this`entries, this`saves
      ensures (nfft, entries) == MapValueGet(old(entries), KeyFftLength, 1024, parseInt, showInt)
      ensures saves == old(saves) + 1
    {
      var r := MapValueGet(entries, KeyFftLength, 1024, parseInt, showInt);
      nfft, entries := r.0, r.1;
      saves := saves + 1;
    }

    /** `setFftLength`: saves only when the entry changed. */
    method SetFftLength(nfft: int)
      modifies this`entries, this`saves
      ensures entries == old(entries)[KeyFftLength := showInt(nfft)]
      ensures saves == old(saves) + (if Entry(old(entries), KeyFftLength) != showInt(nfft) then 1 else 0)
    {
      var r := MapValueSet(entries, KeyFftLength, nfft, showInt);
      entries := r.1;
      if r.0 {
        saves := saves + 1;
      }
    }

    /** `audioHostApi`: an int getter with default -1 that does not save. */
    method AudioHostApi() returns (hostApi: int)
      modifies this`entries
      ensures (hostApi, entries) == MapValueGet(old(entries), KeyAudioHostApi, -1, parseInt, showInt)
    {
      var r := MapValueGet(entries, KeyAudioHostApi, -1, parseInt, showInt);
      hostApi, entries := r.0, r.1;
    }

    /** `inputDeviceName`: a string getter with the empty default, which saves. */
    method InputDeviceName() returns (name: string)
      modifies this`entries, this`saves
      ensures (name, entries) == MapStrGet(old(entries), KeyInputDeviceName, "")
      ensures saves == old(saves) + 1
    {
      var r := MapStrGet(entries, KeyInputDeviceName, "");
      name, entries := r.0, r.1;
      saves := saves + 1;
    }

    /** `pitchColor`: three float getters with defaults (0.87, 0.45, 1.0), then one save. */
    method PitchColor() returns (red: real, green: real, blue: real)
      modifies this`entries, this`saves
      ensures var (a, m1) := MapValueGet(old(entries), KeyPitchColor + SuffixRed, 0.87, parseReal, showReal);
        var (b, m2) := MapValueGet(m1, KeyPitchColor + SuffixGreen, 0.45, parseReal, showReal);
        var (c, m3) := MapValueGet(m2, KeyPitchColor + SuffixBlue, 1.0, parseReal, showReal);
        red == a && green == b && blue == c && entries == m3
      ensures saves == old(saves) + 1
    {
      var r0 := MapValueGet(entries, KeyPitchColor + SuffixRed, 0.87, parseReal, showReal);
      red, entries := r0.0, r0.1;
      var r1 := MapValueGet(entries, KeyPitchColor + SuffixGreen, 0.45, parseReal, showReal);
      green, entries := r1.0, r1.1;
      var r2 := MapValueGet(entries, KeyPitchColor + SuffixBlue, 1.0, parseReal, showReal);
      blue, entries := r2.0, r2.1;
      saves := saves + 1;
    }

    /** `setPitchColor`: three setters joined by `||`. */
    method SetPitchColor(red: real, green: real, blue: real)
      modifies this`entries, this`saves
      ensures ColorWritten(old(entries), entries, KeyPitchColor, showReal(red), showReal(green), showReal(blue))
      ensures saves == old(saves) + (if AnyChanged(old(entries), KeyPitchColor, showReal(red), showReal(green), showReal(blue)) then 1 else 0)
    {
      SetColor(KeyPitchColor, red, green, blue);
    }

    /** `setFormantColor`: the same three setters on the formant colour keys. */
    method SetFormantColor(red: real, green: real, blue: real)
      modifies this`entries, this`saves
      ensures ColorWritten(old(entries), entries, KeyFormantColor, showReal(red), showReal(green), showReal(blue))
      ensures saves == old(saves) + (if AnyChanged(old(entries), KeyFormantColor, showReal(red), showReal(green), showReal(blue)) then 1 else 0)
    {
      SetColor(KeyFormantColor, red, green, blue);
    }

    /** The body the two colour setters share. */
    method SetColor(key: string, red: real, green: real, blue: real)
      modifies this`entries, this`saves
      ensures ColorWritten(old(entries), entries, key, showReal(red), showReal(green), showReal(blue))
      ensures saves == old(saves) + (if AnyChanged(old(entries), key, showReal(red), showReal(green), showReal(blue)) then 1 else 0)
    {
      SuffixesDiffer(key);
      var r0 := MapValueSet(entries, key + SuffixRed, red, showReal);
      entries := r0.1;
      var changed := r0.0;
      if !changed {
        var r1 := MapValueSet(entries, key + SuffixGreen, green, showReal);
        entries := r1.1;
        changed := r1.0;
        if !changed {
          var r2 := MapValueSet(entries, key + SuffixBlue, blue, showReal);
          entries := r2.1;
          changed := r2.0;
        }
      }
      if changed {
        saves := saves + 1;
      }
    }
  }

  /**
   * The entries after a short-circuited colour write: each later component is
   * written only when every earlier one was already stored as given.
   */
  ghost predicate ColorWritten(m0: SettingsMap, m: SettingsMap, key: string, r: string, g: string, b: string)
  {
    var mr := m0[key + SuffixRed := r];
    var mg := mr[key + SuffixGreen := g];
    if Entry(m0, key + SuffixRed) != r then m == mr
    else if Entry(m0, key + SuffixGreen) != g then m == mg
    else m == mg[key + SuffixBlue := b]
  }

  /** Whether any component of the colour write changes the stored text. */
  ghost predicate AnyChanged(m0: SettingsMap, key: string, r: string, g: string, b: string)
  {
    Entry(m0, key + SuffixRed) != r || Entry(m0, key + SuffixGreen) != g || Entry(m0, key + SuffixBlue) != b
  }

  /** The three colour keys are distinct. */
  lemma SuffixesDiffer(key: string)
    ensures key + SuffixRed != key + SuffixGreen
    ensures key + SuffixRed != key + SuffixBlue
    ensures key + SuffixGreen != key + SuffixBlue
  {
    assert (key + SuffixRed)[|key| + 1] == 'r';
    assert (key + SuffixGreen)[|key| + 1] == 'g';
    assert (key + SuffixBlue)[|key| + 1] == 'b';
  }

  /** When the red component changes, the green and blue entries are left as they were. */
  lemma ShortCircuitSkipsLaterKeys(m0: SettingsMap, m: SettingsMap, key: string, r: string, g: string, b: string)
    requires ColorWritten(m0, m, key, r, g, b)
    requires Entry(m0, key + SuffixRed) != r
    ensures Entry(m, key + SuffixGreen) == Entry(m0, key + SuffixGreen)
    ensures Entry(m, key + SuffixBlue) == Entry(m0, key + SuffixBlue)
  {
    SuffixesDiffer(key);
  }
}
