/**
 * The application's configuration validator, class Parameters (app/configurations/builder.py).
 * It reads STAGE, DOCUMENT_LINKS and OPENAI_API_KEY from the environment, lower-cases the stage,
 * decodes the links as JSON, then, when called, rejects missing values before it rejects a stage
 * that is not one of the Stages enum's values, and returns the three settings.
 *
 * The environment is an input value, json.loads is a parameter, and the values of the Stages
 * enum are an abstract set of strings.
 */
module Configuration {
  import opened Wrappers
  import opened Text

  /** A decoded JSON document, as far as the validator tells documents apart: JSON null (which
      json.loads turns into None), an object of names to links, or any other JSON value. */
  datatype Json = JNull | JLinks(links: map<string, string>) | JOther

  /** The three environment variables the constructor reads; None when a variable is unset. */
  datatype Environment = Environment(
    stage: Option<string>,
    documentLinks: Option<string>,
    openaiKey: Option<string>)

  /** What building or calling Parameters can raise:
      TypeError           json.loads given None (DOCUMENT_LINKS unset),
      JsonDecodeError     DOCUMENT_LINKS is not valid JSON,
      MissingVariables    the EnvironmentError for a None among the three values,
      UnsupportedStage    the EnvironmentError for a stage that is no Stages value. */
  datatype ConfigError = TypeError | JsonDecodeError | MissingVariables | UnsupportedStage(stage: Option<string>)

  /** The dictionary __call__ returns: exactly the keys stage, openai_key and document_links. */
  datatype Settings = Settings(stage: string, openaiKey: string, documentLinks: Json)

  /** The check of __call__, on the constructed fields: a None among the key, the links and the
      stage is reported first; then a stage outside the available ones; else the three settings. */
  function Validate(availableStages: set<string>, stage: Option<string>, documentLinks: Json, openaiKey: Option<string>)
    : (r: Result<Settings, ConfigError>)
    ensures r.Ok? <==> openaiKey.Some? && !documentLinks.JNull? && stage.Some? && stage.value in availableStages
    ensures r.Ok? ==> r.value.stage in availableStages
    ensures r.Err? ==> r.error.MissingVariables? || r.error.UnsupportedStage?
  {
    if openaiKey.None? || documentLinks.JNull? || stage.None? then Err(MissingVariables)
    else if stage.value !in availableStages then Err(UnsupportedStage(stage))
    else Ok(Settings(stage.value, openaiKey.value, documentLinks))
  }

  /** What the constructor stores under application_stage: the lower-cased STAGE, or None. */
  function LoweredStage(stage: Option<string>): (r: Option<string>)
    ensures r.None? <==> stage.None?
    ensures r.Some? ==> |r.value| == |stage.value| && forall i :: 0 <= i < |r.value| ==> !IsAsciiUpper(r.value[i])
    ensures r.Some? ==> r.value == ToLowercase(stage.value)
  {
    match stage
    case None => None
    case Some(s) => Some(ToLowercase(s))
  }

  /** `Parameters().__call__()`: construction (which can raise on DOCUMENT_LINKS) then validation. */
  function Configure(availableStages: set<string>, env: Environment, parseJson: string -> Option<Json>)
    : (r: Result<Settings, ConfigError>)
    ensures r.Ok? ==> r.value.stage in availableStages && !r.value.documentLinks.JNull? && env.openaiKey == Some(r.value.openaiKey)
    ensures r == Err(TypeError) <==> env.documentLinks.None?
    ensures r == Err(JsonDecodeError) <==> env.documentLinks.Some? && parseJson(env.documentLinks.value).None?
  {
    if env.documentLinks.None? then Err(TypeError)
    else match parseJson(env.documentLinks.value)
      case None => Err(JsonDecodeError)
      case Some(links) => Validate(availableStages, LoweredStage(env.stage), links, env.openaiKey)
  }

  /** Configuration succeeds iff the links decode to a non-null value, the key is set, and the
      lower-cased stage is an available one; the settings hold that stage, the key and the links. */
  lemma ConfigureSucceeds(availableStages: set<string>, env: Environment, parseJson: string -> Option<Json>)
    ensures Configure(availableStages, env, parseJson).Ok? <==>
              && env.documentLinks.Some?
              && parseJson(env.documentLinks.value).Some?
              && !parseJson(env.documentLinks.value).value.JNull?
              && env.openaiKey.Some?
              && env.stage.Some?
              && ToLowercase(env.stage.value) in availableStages
    ensures Configure(availableStages, env, parseJson).Ok? ==>
              Configure(availableStages, env, parseJson).value
              == Settings(ToLowercase(env.stage.value), env.openaiKey.value, parseJson(env.documentLinks.value).value)
  {
  }

  /** An unset DOCUMENT_LINKS fails in the constructor, whatever the other variables hold. */
  lemma UnsetLinksFailInConstructor(availableStages: set<string>, env: Environment, parseJson: string -> Option<Json>)
    requires env.documentLinks.None?
    ensures Configure(availableStages, env, parseJson) == Err(TypeError)
  {
  }

  /** The None check runs before the stage check: an unset STAGE is reported as missing, never as
      unsupported; and the links are None at the check only when DOCUMENT_LINKS holds JSON null. */
  lemma MissingReportedBeforeUnsupported(availableStages: set<string>, env: Environment, parseJson: string -> Option<Json>)
    requires env.documentLinks.Some? && parseJson(env.documentLinks.value).Some?
    ensures var links := parseJson(env.documentLinks.value).value;
            Configure(availableStages, env, parseJson) == Err(MissingVariables)
            <==> env.stage.None? || env.openaiKey.None? || links.JNull?
    ensures env.stage.None? ==> !Configure(availableStages, env, parseJson).Err?
                                || !Configure(availableStages, env, parseJson).error.UnsupportedStage?
  {
  }

  /** A stage the enum does not know is reported with its lower-cased value. */
  lemma UnsupportedStageReported(availableStages: set<string>, env: Environment, parseJson: string -> Option<Json>)
    requires env.documentLinks.Some? && parseJson(env.documentLinks.value).Some?
    requires !parseJson(env.documentLinks.value).value.JNull? && env.openaiKey.Some? && env.stage.Some?
    requires ToLowercase(env.stage.value) !in availableStages
    ensures Configure(availableStages, env, parseJson) == Err(UnsupportedStage(Some(ToLowercase(env.stage.value))))
  {
  }

  /** Lower-casing makes the stage check case-insensitive for ASCII letters: two STAGE values that
      differ only in case configure alike. */
  lemma StageCaseInsensitive(availableStages: set<string>, env: Environment, stage': string, parseJson: string -> Option<Json>)
    requires env.stage.Some? && ToLowercase(stage') == ToLowercase(env.stage.value)
    ensures Configure(availableStages, env.(stage := Some(stage')), parseJson) == Configure(availableStages, env, parseJson)
  {
  }

  /** The validator object of builder.py. */
  class Parameters {
    /** `[stage.value for stage in Stages]`. */
    const availableStages: set<string>
    var applicationStage: Option<string>
    var documentLinks: Json
    var openaiKey: Option<string>

    /** Stores the constructor's readings; NewParameters computes them and handles the failures. */
    constructor (availableStages: set<string>, applicationStage: Option<string>, documentLinks: Json, openaiKey: Option<string>)
      ensures this.availableStages == availableStages
      ensures this.applicationStage == applicationStage
      ensures this.documentLinks == documentLinks
      ensures this.openaiKey == openaiKey
    {
      this.availableStages := availableStages;
      this.applicationStage := applicationStage;
      this.documentLinks := documentLinks;
      this.openaiKey := openaiKey;
    }

    /** __check_environment_variables_not_none: an error iff one of the three values is None. */
    method CheckEnvironmentVariablesNotNone() returns (err: Option<ConfigError>)
      ensures err.Some? <==> openaiKey.None? || documentLinks.JNull? || applicationStage.None?
      ensures err.Some? ==> err.value == MissingVariables
    {
      if openaiKey.None? || documentLinks.JNull? || applicationStage.None? {
        return Some(MissingVariables);
      }
      return None;
    }

    /** __identify_stage_in_environment: a stored stage equal to an enum value is replaced by that
        value (the same string); anything else, None included, raises with the stored stage. */
    method IdentifyStageInEnvironment() returns (err: Option<ConfigError>)
      modifies this`applicationStage
      ensures err.None? <==> old(applicationStage).Some? && old(applicationStage).value in availableStages
      ensures applicationStage == old(applicationStage)
      ensures err.Some? ==> err.value == UnsupportedStage(old(applicationStage))
    {
      if applicationStage.None? || applicationStage.value !in availableStages {
        return Some(UnsupportedStage(applicationStage));
      }
      var member :| member in availableStages && member == applicationStage.value;
      applicationStage := Some(member);
      return None;
    }

    /** __call__: the None check, then the stage check, then the three-key record. */
    method Call() returns (r: Result<Settings, ConfigError>)
      modifies this`applicationStage
      ensures r == Validate(availableStages, old(applicationStage), documentLinks, openaiKey)
      ensures applicationStage == old(applicationStage)
    {
      var missing := CheckEnvironmentVariablesNotNone();
      if missing.Some? {
        return Err(missing.value);
      }
      var unsupported := IdentifyStageInEnvironment();
      if unsupported.Some? {
        return Err(unsupported.value);
      }
      return Ok(Settings(applicationStage.value, openaiKey.value, documentLinks));
    }
  }

  /** Parameters.__init__: reads the stage and lower-cases it, decodes DOCUMENT_LINKS (json.loads
      raises on None and on malformed text), and reads the key. */
  method NewParameters(availableStages: set<string>, env: Environment, parseJson: string -> Option<Json>)
      returns (r: Result<Parameters, ConfigError>)
    ensures r.Ok? <==> env.documentLinks.Some? && parseJson(env.documentLinks.value).Some?
    ensures r.Err? ==> r.error == (if env.documentLinks.None? then TypeError else JsonDecodeError)
    ensures r.Ok? ==> && fresh(r.value)
                      && r.value.availableStages == availableStages
                      && r.value.applicationStage == LoweredStage(env.stage)
                      && r.value.documentLinks == parseJson(env.documentLinks.value).value
                      && r.value.openaiKey == env.openaiKey
  {
    var applicationStage := env.stage;
    applicationStage := if applicationStage.None? then None else Some(ToLowercase(applicationStage.value));
    if env.documentLinks.None? {
      return Err(TypeError);
    }
    var decoded := parseJson(env.documentLinks.value);
    if decoded.None? {
      return Err(JsonDecodeError);
    }
    var p := new Parameters(availableStages, applicationStage, decoded.value, env.openaiKey);
    return Ok(p);
  }

  /** `Parameters().__call__()` run as the application does at start-up: the outcome is Configure. */
  method LoadSettings(availableStages: set<string>, env: Environment, parseJson: string -> Option<Json>)
      returns (r: Result<Settings, ConfigError>)
    ensures r == Configure(availableStages, env, parseJson)
  {
    var p := NewParameters(availableStages, env, parseJson);
    if p.Err? {
      return Err(p.error);
    }
    r := p.value.Call();
  }
}
