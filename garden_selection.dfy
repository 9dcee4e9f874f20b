/**
 * The garden list screen's own state and logic (src/components/GardenSelection.tsx):
 * the add-garden guard, loading a garden's sensor configuration into the form, and
 * normalising the form back into a configuration that is handed to the store's
 * update-garden.
 */
module GardenSelection {
  import opened Types
  import opened Text
  import Store

  const DefaultSensorName := "Room Alert Sensor"

  /** The four text inputs of the configuration dialog. */
  datatype ConfigFields = ConfigFields(deviceId: string, sensorName: string, model: string, serialNumber: string)

  const EmptyFields := ConfigFields("", "", "", "")

  /** `value || ''` for an optional string. */
  function OrEmpty(s: Option<string>): string
  {
    if s.Some? then s.value else ""
  }

  /** `s.trim() || undefined`. */
  function TrimmedOrUndefined(s: string): (r: Option<string>)
    ensures r.None? <==> AllSpace(s)
    ensures r.Some? ==> r.value == Trim(s) && r.value != "" && IsTrimmed(r.value)
  {
    TrimSpec(s);
    var t := Trim(s);
    if t == "" then None else Some(t)
  }

  /** What opening the dialog loads into the inputs: each field, or '' when there is none. */
  function LoadFields(cfg: Option<SensorConfig>): (f: ConfigFields)
    ensures cfg.None? ==> f == EmptyFields
    ensures cfg.Some? ==> f.deviceId == cfg.value.deviceId && f.sensorName == cfg.value.sensorName
    ensures cfg.Some? ==> (f.model == "" <==> cfg.value.model.None? || cfg.value.model.value == "")
    ensures cfg.Some? && cfg.value.model.Some? ==> f.model == cfg.value.model.value
    ensures cfg.Some? ==> (f.serialNumber == "" <==> cfg.value.serialNumber.None? || cfg.value.serialNumber.value == "")
    ensures cfg.Some? && cfg.value.serialNumber.Some? ==> f.serialNumber == cfg.value.serialNumber.value
  {
    match cfg
    case None => EmptyFields
    case Some(c) => ConfigFields(c.deviceId, c.sensorName, OrEmpty(c.model), OrEmpty(c.serialNumber))
  }

  /** A configuration as saving produces it: every present field trimmed and non-blank. */
  predicate Normalised(c: SensorConfig)
  {
    && c.deviceId != "" && IsTrimmed(c.deviceId)
    && c.sensorName != "" && IsTrimmed(c.sensorName)
    && (c.model.Some? ==> c.model.value != "" && IsTrimmed(c.model.value))
    && (c.serialNumber.Some? ==> c.serialNumber.value != "" && IsTrimmed(c.serialNumber.value))
  }

  /**
   * The configuration built on save: none when the device id is blank after
   * trimming; otherwise the trimmed device id, the trimmed sensor name or the
   * default, and the trimmed model and serial number or nothing when blank.
   */
  function BuildConfig(f: ConfigFields): (r: Option<SensorConfig>)
    ensures r.None? <==> AllSpace(f.deviceId)
    ensures r.Some? ==> Normalised(r.value)
    ensures r.Some? ==> r.value.deviceId == Trim(f.deviceId)
    ensures r.Some? ==> r.value.sensorName == if AllSpace(f.sensorName) then DefaultSensorName else Trim(f.sensorName)
    ensures r.Some? ==> r.value.model == TrimmedOrUndefined(f.model)
    ensures r.Some? ==> r.value.serialNumber == TrimmedOrUndefined(f.serialNumber)
  {
    TrimSpec(f.deviceId);
    TrimSpec(f.sensorName);
    assert IsTrimmed(DefaultSensorName);
    if Trim(f.deviceId) == "" then None
    else
      Some(SensorConfig(
        Trim(f.deviceId),
        if Trim(f.sensorName) == "" then DefaultSensorName else Trim(f.sensorName),
        TrimmedOrUndefined(f.model),
        TrimmedOrUndefined(f.serialNumber)))
  }

  /** The garden handed to update-garden: the edited garden with only its configuration replaced. */
  function SavedGarden(g: Garden, f: ConfigFields): (r: Garden)
    ensures r.id == g.id && r.name == g.name && r.plantCount == g.plantCount
    ensures r.roomAlertConfig == BuildConfig(f)
  {
    g.(roomAlertConfig := BuildConfig(f))
  }

  /** Opening a normalised configuration and saving it unedited gives it back unchanged. */
  lemma OpenThenSaveRoundTrip(cfg: Option<SensorConfig>)
    requires cfg.Some? ==> Normalised(cfg.value)
    ensures BuildConfig(LoadFields(cfg)) == cfg
  {
    if cfg.Some? {
      var c := cfg.value;
      TrimOfTrimmed(c.deviceId);
      TrimOfTrimmed(c.sensorName);
      TrimSpec(c.sensorName);
      if c.model.Some? {
        TrimOfTrimmed(c.model.value);
        TrimSpec(c.model.value);
      }
      if c.serialNumber.Some? {
        TrimOfTrimmed(c.serialNumber.value);
        TrimSpec(c.serialNumber.value);
      }
      TrimSpec(c.deviceId);
    }
  }

  /** The dialog's two quick-setup buttons fill all four inputs with a known device. */
  const RA3Preset := ConfigFields("RA3E-A46074", "RA3 Sensor", "RA3", "RA3E-A46074")
  const RA12SPreset := ConfigFields("RA12S-703DEF", "RA12S Sensor", "RA12S", "RA12S-703DEF")

  /** Saving a quick-setup device stores exactly what the button typed. */
  lemma PresetsSaveAsTyped()
    ensures BuildConfig(RA3Preset) == Some(SensorConfig("RA3E-A46074", "RA3 Sensor", Some("RA3"), Some("RA3E-A46074")))
    ensures BuildConfig(RA12SPreset) ==
              Some(SensorConfig("RA12S-703DEF", "RA12S Sensor", Some("RA12S"), Some("RA12S-703DEF")))
  {
    var ra3 := SensorConfig("RA3E-A46074", "RA3 Sensor", Some("RA3"), Some("RA3E-A46074"));
    var ra12s := SensorConfig("RA12S-703DEF", "RA12S Sensor", Some("RA12S"), Some("RA12S-703DEF"));
    assert LoadFields(Some(ra3)) == RA3Preset;
    assert LoadFields(Some(ra12s)) == RA12SPreset;
    OpenThenSaveRoundTrip(Some(ra3));
    OpenThenSaveRoundTrip(Some(ra12s));
  }

  /** Saving, reopening and saving again changes nothing: normalisation is idempotent. */
  lemma SaveIsStable(f: ConfigFields)
    ensures BuildConfig(LoadFields(BuildConfig(f))) == BuildConfig(f)
  {
    OpenThenSaveRoundTrip(BuildConfig(f));
  }

  /**
   * Saving the dialog for a garden of a consistent store keeps it consistent once
   * update-garden applies it, because the saved garden keeps its id and count.
   */
  lemma SaveKeepsStoreConsistent(gs: seq<Garden>, plants: PlantsMap, i: int, f: ConfigFields)
    requires Store.Consistent(gs, plants) && 0 <= i < |gs|
    ensures Store.Consistent(Store.ReplaceGarden(gs, SavedGarden(gs[i], f)), plants)
  {
    var u := SavedGarden(gs[i], f);
    Store.UpdateGardenKeepsConsistent(gs, plants, u);
  }

  /** The seven state cells of the garden list screen. */
  class GardenSelectionState {
    var showAddGarden: bool
    var newGardenName: string
    var editingGarden: Option<Garden>
    var deviceId: string
    var sensorName: string
    var deviceModel: string
    var serialNumber: string

    function Fields(): ConfigFields
      reads this
    {
      ConfigFields(deviceId, sensorName, deviceModel, serialNumber)
    }

    constructor ()
      ensures !showAddGarden && newGardenName == "" && editingGarden == None
      ensures Fields() == EmptyFields
    {
      showAddGarden := false;
      newGardenName := "";
      editingGarden := None;
      deviceId, sensorName, deviceModel, serialNumber := "", "", "", "";
    }

    /** The add button of the list opens the new-garden dialog. */
    method OpenAddGarden()
      modifies this
      ensures showAddGarden && newGardenName == old(newGardenName)
      ensures editingGarden == old(editingGarden) && Fields() == old(Fields())
    {
      showAddGarden := true;
    }

    /** Cancelling the new-garden dialog closes it and clears the typed name. */
    method CancelAddGarden()
      modifies this
      ensures !showAddGarden && newGardenName == ""
      ensures editingGarden == old(editingGarden) && Fields() == old(Fields())
    {
      showAddGarden := false;
      newGardenName := "";
    }

    /** Typing into the new-garden input. */
    method TypeGardenName(s: string)
      modifies this
      ensures newGardenName == s && showAddGarden == old(showAddGarden)
      ensures editingGarden == old(editingGarden) && Fields() == old(Fields())
    {
      newGardenName := s;
    }

    /**
     * The add button: when the typed name is not blank, the UNtrimmed name is
     * handed to add-garden and the dialog closes; otherwise nothing happens.
     */
    method SubmitNewGarden() returns (added: Option<string>)
      modifies this
      ensures added.Some? <==> !AllSpace(old(newGardenName))
      ensures added.Some? ==> added.value == old(newGardenName) && newGardenName == "" && !showAddGarden
      ensures added.None? ==> newGardenName == old(newGardenName) && showAddGarden == old(showAddGarden)
      ensures editingGarden == old(editingGarden) && Fields() == old(Fields())
    {
      TrimSpec(newGardenName);
      if Trim(newGardenName) != "" {
        added := Some(newGardenName);
        newGardenName := "";
        showAddGarden := false;
      } else {
        added := None;
      }
    }

    /** Opening the dialog for a garden loads its configuration into the inputs. */
    method OpenConfig(g: Garden)
      modifies this
      ensures editingGarden == Some(g) && Fields() == LoadFields(g.roomAlertConfig)
      ensures showAddGarden == old(showAddGarden) && newGardenName == old(newGardenName)
    {
      editingGarden := Some(g);
      var f := LoadFields(g.roomAlertConfig);
      deviceId, sensorName, deviceModel, serialNumber := f.deviceId, f.sensorName, f.model, f.serialNumber;
    }

    /** Typing into the dialog's inputs, or choosing one of its quick-setup devices. */
    method EditFields(f: ConfigFields)
      modifies this
      ensures Fields() == f && editingGarden == old(editingGarden)
      ensures showAddGarden == old(showAddGarden) && newGardenName == old(newGardenName)
    {
      deviceId, sensorName, deviceModel, serialNumber := f.deviceId, f.sensorName, f.model, f.serialNumber;
    }

    /**
     * Save: with no garden being edited nothing happens; otherwise the edited
     * garden with the normalised configuration is handed to update-garden and the
     * dialog is cleared.
     */
    method SaveConfig() returns (saved: Option<Garden>)
      modifies this
      ensures old(editingGarden).None? ==> saved == None && Fields() == old(Fields()) && editingGarden == None
      ensures old(editingGarden).Some? ==>
                saved == Some(SavedGarden(old(editingGarden).value, old(Fields()))) &&
                editingGarden == None && Fields() == EmptyFields
      ensures showAddGarden == old(showAddGarden) && newGardenName == old(newGardenName)
    {
      if editingGarden.Some? {
        ghost var before := Fields();
        saved := Some(SavedGarden(editingGarden.value, Fields()));
        editingGarden := None;
        deviceId, sensorName, deviceModel, serialNumber := "", "", "", "";
        assert Fields() == EmptyFields;
        assert before == old(Fields());
      } else {
        saved := None;
      }
    }

    /** Cancel closes the dialog without handing anything over. */
    method CancelConfig()
      modifies this
      ensures editingGarden == None && Fields() == EmptyFields
      ensures showAddGarden == old(showAddGarden) && newGardenName == old(newGardenName)
    {
      editingGarden := None;
      deviceId, sensorName, deviceModel, serialNumber := "", "", "", "";
    }
  }
}
