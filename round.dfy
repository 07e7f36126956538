/**
 * One processing round of one discovered resource class, and the result it
 * reports back to the session.
 */
module Round {
  import opened Wrappers
  import opened Elements

  /** How far the processing of one unit got in this round. */
  datatype State = Complete | Partial | Error

  /**
   * The outcome of processing one unit: its state and, for an error, the
   * element to blame and the message to report (each possibly absent).
   */
  datatype ProcessingResult = ProcessingResult(
    state: State,
    errorElement: Option<Element>,
    errorMessage: Option<string>)

  /** The one-argument constructor: a result without element or message. */
  function ResultOf(state: State): (r: ProcessingResult)
    ensures r.state == state
    ensures r.errorElement == None && r.errorMessage == None
  {
    ProcessingResult(state, None, None)
  }

  /** The three-argument constructor: the state, element and message are kept as given. */
  function ResultWith(state: State, errorElement: Option<Element>, errorMessage: Option<string>): (r: ProcessingResult)
    ensures r.state == state
    ensures r.errorElement == errorElement && r.errorMessage == errorMessage
  {
    ProcessingResult(state, errorElement, errorMessage)
  }

  /**
   * Layout processing of one resource class. The generator is not written
   * yet: every unit is reported as an error with neither element nor message.
   */
  function ProcessLayouts(resourcesClass: Resources): (r: ProcessingResult)
    ensures r.state == Error
    ensures r.errorElement == None && r.errorMessage == None
  {
    ResultOf(Error)
  }
}
