/**
 * The settings dialog: a local copy of the settings record, updated one key
 * at a time and pushed to the owner after each change, and the controls it
 * renders. Nothing else in the application reads these settings.
 */
module SettingsPanel {
  import opened Prelude
  import opened Text

  /** The keys the dialog edits. */
  datatype Key = AutoSaveEnabled | AutoSaveInterval | AutoSaveOnChange | ShowSaveStatus

  /** A setting's value: a checkbox's flag or the interval in seconds. */
  datatype Value = Flag(flag: bool) | Seconds(seconds: int)

  /** The settings record; a key the owner never set is absent. */
  type Settings = map<Key, Value>

  /** `{ ...settings, [key]: value }`: the record with `key` set and every other key as it was. */
  function Updated(settings: Settings, key: Key, value: Value): (r: Settings)
    ensures r.Keys == settings.Keys + {key}
    ensures r[key] == value
    ensures forall k :: k in settings && k != key ==> r[k] == settings[k]
  {
    settings[key := value]
  }

  /** Setting a key to the value it already has gives the same record back. */
  lemma UpdateToSameValue(settings: Settings, key: Key)
    requires key in settings
    ensures Updated(settings, key, settings[key]) == settings
  {
    var r := Updated(settings, key, settings[key]);
    assert r.Keys == settings.Keys;
    assert forall k :: k in r ==> r[k] == settings[k];
  }

  /** Two updates of different keys give the same record in either order. */
  lemma UpdatesCommute(settings: Settings, k1: Key, v1: Value, k2: Key, v2: Value)
    requires k1 != k2
    ensures Updated(Updated(settings, k1, v1), k2, v2) == Updated(Updated(settings, k2, v2), k1, v1)
  {
    var a := Updated(Updated(settings, k1, v1), k2, v2);
    var b := Updated(Updated(settings, k2, v2), k1, v1);
    assert a.Keys == b.Keys;
    assert forall k :: k in a ==> a[k] == b[k];
  }

  /** JavaScript truthiness of a setting: an absent key is `undefined`, a number is truthy unless 0. */
  function Truthy(v: Option<Value>): (b: bool)
    ensures v.None? ==> !b
    ensures v.Some? && v.value.Flag? ==> (b <==> v.value.flag)
    ensures v.Some? && v.value.Seconds? ==> (b <==> v.value.seconds != 0)
  {
    match v
    case None => false
    case Some(Flag(f)) => f
    case Some(Seconds(n)) => n != 0
  }

  /** A key's value, or none when the record lacks it. */
  function Lookup(settings: Settings, key: Key): Option<Value>
  {
    if key in settings then Some(settings[key]) else None
  }

  /** The interval options, in the order the menu lists them. */
  const IntervalChoices: seq<nat> := [3, 5, 10, 15, 30, 60]

  /**
   * Choosing the `i`-th option: the menu hands over the option's value as
   * text and `parseInt` reads it back, giving that number of seconds.
   */
  function ChooseInterval(i: nat): (v: Value)
    requires i < |IntervalChoices|
    ensures v == Seconds(IntervalChoices[i])
    ensures v.seconds in {3, 5, 10, 15, 30, 60}
  {
    NatToStringRoundTrip(IntervalChoices[i]);
    Seconds(DigitsValue(NatToString(IntervalChoices[i])))
  }

  /** What the open dialog shows: each control's checked state or value, and which are disabled. */
  datatype Controls = Controls(
    autoSaveChecked: bool,
    interval: Option<Value>,
    intervalDisabled: bool,
    onChangeChecked: bool,
    onChangeDisabled: bool,
    showSaveStatusChecked: bool)

  /**
   * The dialog for `settings`: nothing when closed; when open, the interval
   * menu and the on-change checkbox are disabled exactly when auto-save is
   * not on.
   */
  function ControlsFor(settings: Settings, isOpen: bool): (r: Option<Controls>)
    ensures r.None? <==> !isOpen
    ensures r.Some? ==>
      && r.value.autoSaveChecked == Truthy(Lookup(settings, AutoSaveEnabled))
      && r.value.interval == Lookup(settings, AutoSaveInterval)
      && (r.value.intervalDisabled <==> !Truthy(Lookup(settings, AutoSaveEnabled)))
      && (r.value.onChangeDisabled <==> !Truthy(Lookup(settings, AutoSaveEnabled)))
      && r.value.onChangeChecked == Truthy(Lookup(settings, AutoSaveOnChange))
      && r.value.showSaveStatusChecked == Truthy(Lookup(settings, ShowSaveStatus))
  {
    if !isOpen then None
    else
      var enabled := Truthy(Lookup(settings, AutoSaveEnabled));
      Some(Controls(enabled, Lookup(settings, AutoSaveInterval), !enabled,
                    Truthy(Lookup(settings, AutoSaveOnChange)), !enabled,
                    Truthy(Lookup(settings, ShowSaveStatus))))
  }

  /**
   * Unticking "Enable auto-save" disables the interval and on-change
   * controls; a change to any other key leaves their disabled state as it was.
   */
  lemma AutoSaveGatesControls(settings: Settings, key: Key, value: Value)
    ensures var c := ControlsFor(Updated(settings, AutoSaveEnabled, Flag(false)), true).value;
      c.intervalDisabled && c.onChangeDisabled && !c.autoSaveChecked
    ensures key != AutoSaveEnabled ==>
      ControlsFor(Updated(settings, key, value), true).value.intervalDisabled
        == ControlsFor(settings, true).value.intervalDisabled
  {
    assert Lookup(Updated(settings, AutoSaveEnabled, Flag(false)), AutoSaveEnabled) == Some(Flag(false));
    if key != AutoSaveEnabled {
      assert Lookup(Updated(settings, key, value), AutoSaveEnabled) == Lookup(settings, AutoSaveEnabled);
    }
  }

  /** The dialog's `localSettings`, seeded from the owner's settings when it is created. */
  class Panel {
    var localSettings: Settings

    constructor (settings: Settings)
      ensures localSettings == settings
    {
      localSettings := settings;
    }

    /** What the dialog renders. */
    function Render(isOpen: bool): (r: Option<Controls>)
      reads this
      ensures r.None? <==> !isOpen
    {
      ControlsFor(localSettings, isOpen)
    }

    /**
     * `handleSettingChange(key, value)`: the record updated at `key` becomes
     * the local copy, and the same record is what the owner is handed.
     */
    method HandleSettingChange(key: Key, value: Value) returns (pushed: Settings)
      modifies this
      ensures localSettings == Updated(old(localSettings), key, value)
      ensures pushed == localSettings
    {
      var updated := Updated(localSettings, key, value);
      localSettings := updated;
      pushed := updated;
    }
  }
}
