/**
 * Configuration of the Log4j appender. Every capture option is fixed when the
 * appender is built by its plugin factory; the context-data selection string
 * is parsed once, and the "capture all context data" flag is derived from the
 * parsed set.
 */
module Log4jAppender {
  import opened KeySelection

  /** The final configuration fields of an appender instance. */
  datatype Appender = Appender(
    name: string,
    codeAttrs: bool,
    experimentalAttrs: bool,
    mapMessageAttrs: bool,
    markerAttr: bool,
    allCdataAttrs: bool,
    cdataAttrs: set<string>,
    eventName: bool)

  /** The all-keys flag agrees with the key set. */
  ghost predicate Consistent(a: Appender)
  {
    a.allCdataAttrs <==> a.cdataAttrs == {Wildcard}
  }

  /**
   * The constructor: every argument is stored as given, the set included (a
   * `*` entry is kept), and the all-keys flag is set when the set is exactly `{"*"}`.
   */
  function NewAppender(name: string, codeAttrs: bool, experimentalAttrs: bool, mapMessageAttrs: bool,
                       markerAttr: bool, cdataAttrs: set<string>, eventName: bool): (a: Appender)
    ensures a.name == name && a.codeAttrs == codeAttrs && a.experimentalAttrs == experimentalAttrs
    ensures a.mapMessageAttrs == mapMessageAttrs && a.markerAttr == markerAttr && a.eventName == eventName
    ensures a.cdataAttrs == cdataAttrs
    ensures a.allCdataAttrs <==> cdataAttrs == {Wildcard}
  {
    Appender(name, codeAttrs, experimentalAttrs, mapMessageAttrs, markerAttr,
             SelectsAll(cdataAttrs), cdataAttrs, eventName)
  }

  /**
   * The plugin factory: parses the selection string (absent is `None`) and
   * passes every other option through to the constructor in the same position.
   */
  function CreateAppender(name: string, codeAttrs: bool, experimentalAttrs: bool, mapMessageAttrs: bool,
                          markerAttr: bool, cdataAttrsString: Option<string>, eventName: bool): (a: Appender)
    ensures a.name == name && a.codeAttrs == codeAttrs && a.experimentalAttrs == experimentalAttrs
    ensures a.mapMessageAttrs == mapMessageAttrs && a.markerAttr == markerAttr && a.eventName == eventName
    ensures a.cdataAttrs == TrimmedSet(cdataAttrsString)
    ensures forall k <- a.cdataAttrs :: IsKey(k)
    ensures cdataAttrsString.None? ==> a.cdataAttrs == {} && !a.allCdataAttrs
    ensures Consistent(a)
  {
    TrimmedSetKeys(cdataAttrsString);
    NewAppender(name, codeAttrs, experimentalAttrs, mapMessageAttrs, markerAttr,
                TrimmedSet(cdataAttrsString), eventName)
  }

  /**
   * The factory turns on "all context data" exactly when some field of the
   * selection string trims to `*` and every other field trims to `*` or to nothing.
   */
  lemma CreateAppenderCapturesAll(name: string, codeAttrs: bool, experimentalAttrs: bool, mapMessageAttrs: bool,
                                  markerAttr: bool, s: string, eventName: bool)
    ensures CreateAppender(name, codeAttrs, experimentalAttrs, mapMessageAttrs, markerAttr, Some(s), eventName).allCdataAttrs <==>
      OnlyWildcardPieces(Split(s))
  {
    SelectsAllFields(s);
  }

  /**
   * A selected context-data key of a built appender is exactly a non-empty
   * trimmed key standing alone in one field of the selection string.
   */
  lemma CreateAppenderSelects(name: string, codeAttrs: bool, experimentalAttrs: bool, mapMessageAttrs: bool,
                              markerAttr: bool, s: string, eventName: bool, x: string)
    ensures x in CreateAppender(name, codeAttrs, experimentalAttrs, mapMessageAttrs, markerAttr, Some(s), eventName).cdataAttrs <==>
      IsKey(x) && exists a, i, j, b :: KeyAt(s, x, a, i, j, b)
  {
    TrimmedSetMembers(s, x);
  }

  /** The all-keys flag for the sample selections "*", " * , * ", "*,x", "" and an absent attribute. */
  lemma ExamplesOfCaptureAll(name: string)
    ensures CreateAppender(name, false, false, false, false, Some("*"), false).allCdataAttrs
    ensures CreateAppender(name, false, false, false, false, Some(" * , * "), false).allCdataAttrs
    ensures !CreateAppender(name, false, false, false, false, Some("*,x"), false).allCdataAttrs
    ensures !CreateAppender(name, false, false, false, false, Some(""), false).allCdataAttrs
    ensures !CreateAppender(name, false, false, false, false, None, false).allCdataAttrs
  {
    ExampleWildcard();
    ExampleRepeatedPaddedWildcard();
    ExampleWildcardAmongKeys();
    ExampleNothingSelected();
  }
}
