/**
 * Configuration of the Logback appender: a bean whose public capture options
 * Logback's configurator sets one by one through setters. The MDC key setter
 * parses the selection string and updates the key set and the "capture all
 * MDC" flag together, so the two stay consistent as long as they are changed
 * through it.
 */
module LogbackAppender {
  import opened KeySelection

  /** A snapshot of every capture option of an appender. */
  datatype Config = Config(
    captureCodeAttributes: bool,
    captureExperimentalAttributes: bool,
    captureMarkerAttribute: bool,
    captureKeyValuePairAttributes: bool,
    captureLoggerContext: bool,
    captureArguments: bool,
    captureLogstashMarkerAttributes: bool,
    captureLogstashStructuredArguments: bool,
    captureAllMdcAttributes: bool,
    captureMdcAttributes: set<string>,
    captureEventName: bool)

  /** The all-MDC flag agrees with the MDC key set. */
  ghost predicate Consistent(c: Config)
  {
    c.captureAllMdcAttributes <==> c.captureMdcAttributes == {Wildcard}
  }

  /** Every flag off and no MDC key selected. */
  function Defaults(): (c: Config)
    ensures c.captureMdcAttributes == {} && !c.captureAllMdcAttributes && !c.captureEventName
    ensures !c.captureCodeAttributes && !c.captureExperimentalAttributes && !c.captureMarkerAttribute
    ensures !c.captureKeyValuePairAttributes && !c.captureLoggerContext && !c.captureArguments
    ensures !c.captureLogstashMarkerAttributes && !c.captureLogstashStructuredArguments
    ensures Consistent(c)
  {
    Config(false, false, false, false, false, false, false, false, false, {}, false)
  }

  /** The options after the MDC key selection has been set from `attributes`. */
  function WithMdcAttributes(c: Config, attributes: Option<string>): (r: Config)
    ensures r.captureMdcAttributes == TrimmedSet(attributes)
    ensures r.captureAllMdcAttributes <==> r.captureMdcAttributes == {Wildcard}
    ensures Consistent(r)
    ensures attributes.None? ==> r.captureMdcAttributes == {} && !r.captureAllMdcAttributes
    ensures r.(captureMdcAttributes := c.captureMdcAttributes, captureAllMdcAttributes := c.captureAllMdcAttributes) == c
  {
    var keys := TrimmedSet(attributes);
    c.(captureMdcAttributes := keys, captureAllMdcAttributes := SelectsAll(keys))
  }

  /** Setting the MDC key selection twice with the same string is the same as setting it once. */
  lemma WithMdcAttributesIdempotent(c: Config, attributes: Option<string>)
    ensures WithMdcAttributes(WithMdcAttributes(c, attributes), attributes) == WithMdcAttributes(c, attributes)
  {
  }

  /** Only the last MDC key selection counts. */
  lemma WithMdcAttributesLastWins(c: Config, first: Option<string>, second: Option<string>)
    ensures WithMdcAttributes(WithMdcAttributes(c, first), second) == WithMdcAttributes(c, second)
  {
  }

  class OtelAppender {
    var captureCodeAttributes: bool
    var captureExperimentalAttributes: bool
    var captureMarkerAttribute: bool
    var captureKeyValuePairAttributes: bool
    var captureLoggerContext: bool
    var captureArguments: bool
    var captureLogstashMarkerAttributes: bool
    var captureLogstashStructuredArguments: bool
    var captureAllMdcAttributes: bool
    var captureMdcAttributes: set<string>
    var captureEventName: bool

    /** The current options. */
    function Snapshot(): Config
      reads this
    {
      Config(captureCodeAttributes, captureExperimentalAttributes, captureMarkerAttribute,
             captureKeyValuePairAttributes, captureLoggerContext, captureArguments,
             captureLogstashMarkerAttributes, captureLogstashStructuredArguments,
             captureAllMdcAttributes, captureMdcAttributes, captureEventName)
    }

    /**
     * The fields are public, so this holds only while the two MDC fields are
     * changed through SetCaptureMdcAttributes.
     */
    ghost predicate Valid()
      reads this
    {
      Consistent(Snapshot())
    }

    /** A fresh appender carries the field defaults. */
    constructor ()
      ensures Snapshot() == Defaults()
      ensures Valid()
    {
      captureCodeAttributes := false;
      captureExperimentalAttributes := false;
      captureMarkerAttribute := false;
      captureKeyValuePairAttributes := false;
      captureLoggerContext := false;
      captureArguments := false;
      captureLogstashMarkerAttributes := false;
      captureLogstashStructuredArguments := false;
      captureAllMdcAttributes := false;
      captureMdcAttributes := {};
      captureEventName := false;
    }

    method SetCaptureExperimentalAttributes(value: bool)
      modifies this
      ensures Snapshot() == old(Snapshot()).(captureExperimentalAttributes := value)
      ensures Valid() <==> old(Valid())
    {
      captureExperimentalAttributes := value;
    }

    method SetCaptureCodeAttributes(value: bool)
      modifies this
      ensures Snapshot() == old(Snapshot()).(captureCodeAttributes := value)
      ensures Valid() <==> old(Valid())
    {
      captureCodeAttributes := value;
    }

    method SetCaptureMarkerAttribute(value: bool)
      modifies this
      ensures Snapshot() == old(Snapshot()).(captureMarkerAttribute := value)
      ensures Valid() <==> old(Valid())
    {
      captureMarkerAttribute := value;
    }

    method SetCaptureKeyValuePairAttributes(value: bool)
      modifies this
      ensures Snapshot() == old(Snapshot()).(captureKeyValuePairAttributes := value)
      ensures Valid() <==> old(Valid())
    {
      captureKeyValuePairAttributes := value;
    }

    method SetCaptureLoggerContext(value: bool)
      modifies this
      ensures Snapshot() == old(Snapshot()).(captureLoggerContext := value)
      ensures Valid() <==> old(Valid())
    {
      captureLoggerContext := value;
    }

    method SetCaptureArguments(value: bool)
      modifies this
      ensures Snapshot() == old(Snapshot()).(captureArguments := value)
      ensures Valid() <==> old(Valid())
    {
      captureArguments := value;
    }

    method SetCaptureLogstashMarkerAttributes(value: bool)
      modifies this
      ensures Snapshot() == old(Snapshot()).(captureLogstashMarkerAttributes := value)
      ensures Valid() <==> old(Valid())
    {
      captureLogstashMarkerAttributes := value;
    }

    method SetCaptureLogstashStructuredArguments(value: bool)
      modifies this
      ensures Snapshot() == old(Snapshot()).(captureLogstashStructuredArguments := value)
      ensures Valid() <==> old(Valid())
    {
      captureLogstashStructuredArguments := value;
    }

    /**
     * Parses `attributes` into the MDC key set, then derives the all-MDC flag
     * from the new set; this re-establishes Valid() whatever the state before.
     */
    method SetCaptureMdcAttributes(attributes: Option<string>)
      modifies this
      ensures captureMdcAttributes == TrimmedSet(attributes)
      ensures captureAllMdcAttributes <==> captureMdcAttributes == {Wildcard}
      ensures Snapshot() == WithMdcAttributes(old(Snapshot()), attributes)
      ensures Valid()
    {
      captureMdcAttributes := TrimmedSet(attributes);
      captureAllMdcAttributes := SelectsAll(captureMdcAttributes);
    }

    method SetCaptureEventName(value: bool)
      modifies this
      ensures Snapshot() == old(Snapshot()).(captureEventName := value)
      ensures Valid() <==> old(Valid())
    {
      captureEventName := value;
    }
  }

  /**
   * Calling SetCaptureMdcAttributes twice with the same string leaves the
   * appender as one call does.
   */
  method SetCaptureMdcAttributesTwice(app: OtelAppender, attributes: Option<string>)
    modifies app
    ensures app.Snapshot() == WithMdcAttributes(old(app.Snapshot()), attributes)
    ensures app.Valid()
  {
    app.SetCaptureMdcAttributes(attributes);
    app.SetCaptureMdcAttributes(attributes);
    WithMdcAttributesIdempotent(old(app.Snapshot()), attributes);
  }
}
