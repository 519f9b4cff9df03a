/** The bot manager: a wrapper around an opaque conversational engine that is
    trained once and then answers one input at a time. The engine and the
    training corpora are not visible; they are represented by two constants
    fixed at construction: whether training succeeds, and the engine's answer
    to its n-th query. */
module Responder {

  /** What one call of the engine produces: a reply, the message of the
      exception it raised, or a keyboard interrupt that arrived while it was
      working (an interrupt is not an `Exception` and is not caught as one). */
  datatype Reply = Answer(text: string) | Failure(reason: string) | Interrupted

  datatype Training = Trained | TrainingFailed(reason: string)

  class BotManager {
    /** Whether loading the corpora and the custom conversation succeeds. */
    const trainingSucceeds: bool
    /** The message of the exception training raises when it fails. */
    const trainingError: string
    /** The engine's outcome for its n-th query with a given input. */
    const engine: (nat, string) -> Reply

    var isTrained: bool
    /** Every input passed to the engine so far, in order. */
    var queries: seq<string>

    constructor (trainingSucceeds: bool, trainingError: string, engine: (nat, string) -> Reply)
      ensures this.trainingSucceeds == trainingSucceeds
      ensures this.trainingError == trainingError
      ensures this.engine == engine
      ensures !isTrained && queries == []
    {
      this.trainingSucceeds := trainingSucceeds;
      this.trainingError := trainingError;
      this.engine := engine;
      isTrained := false;
      queries := [];
    }

    /** Trains on the first successful call only; later calls do nothing. */
    method TrainBot() returns (t: Training)
      modifies this`isTrained
      ensures isTrained == (old(isTrained) || trainingSucceeds)
      ensures t == if isTrained then Trained else TrainingFailed(trainingError)
    {
      if !isTrained {
        if !trainingSucceeds {
          return TrainingFailed(trainingError);
        }
        isTrained := true;
      }
      t := Trained;
    }

    /** Trains first if needed, then asks the engine. A training failure is
        reported as a failed reply without reaching the engine. */
    method GetResponse(input: string) returns (r: Reply)
      modifies this`isTrained, this`queries
      ensures isTrained == (old(isTrained) || trainingSucceeds)
      ensures isTrained ==> r == engine(|old(queries)|, input) && queries == old(queries) + [input]
      ensures !isTrained ==> r == Failure(trainingError) && queries == old(queries)
    {
      if !isTrained {
        var t := TrainBot();
        if t.TrainingFailed? {
          return Failure(t.reason);
        }
      }
      r := engine(|queries|, input);
      queries := queries + [input];
    }
  }
}
