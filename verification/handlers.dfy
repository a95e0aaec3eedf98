/** The handler layer: dataset access and model inference.
    Loading the dataset file and the serialised classifier is not modelled:
    both arrive as values. The random draw is a parameter. */
module Handlers {
  import opened Wrappers
  import Text
  import Json

  /** One labelled headline of the dataset; `extra` holds any further keys
      of the JSON object (such as `article_link`). */
  datatype Entry = Entry(headline: string, isSarcastic: int, extra: map<string, Json.Value>)

  /** The trained classifier, seen through its one capability: a label per text. */
  type Classifier = string -> int

  /** The error `randint(0, len(dataset) - 1)` raises on an empty dataset. */
  datatype SelectError = EmptyRange

  /** A value `randint(0, size - 1)` can return. */
  predicate ValidPick(size: nat, pick: int) {
    size > 0 ==> 0 <= pick <= size - 1
  }

  /** `DatasetHandler.get_random_entry`, with the drawn index `pick` given:
      the label and the headline of the entry at that index. */
  function GetRandomEntry(dataset: seq<Entry>, pick: int): (r: Result<(int, string), SelectError>)
    requires ValidPick(|dataset|, pick)
    ensures r.Failure? <==> |dataset| == 0
    ensures r.Success? ==> r.value.0 == dataset[pick].isSarcastic && r.value.1 == dataset[pick].headline
    ensures r.Success? ==> exists e :: e in dataset && r.value == (e.isSarcastic, e.headline)
  {
    if |dataset| == 0 then Failure(EmptyRange)
    else
      var entry := dataset[pick];
      Success((entry.isSarcastic, entry.headline))
  }

  /** Every entry of a non-empty dataset can be drawn. */
  lemma EveryEntryReachable(dataset: seq<Entry>, i: int)
    requires 0 <= i < |dataset|
    ensures GetRandomEntry(dataset, i) == Success((dataset[i].isSarcastic, dataset[i].headline))
  {
  }

  /** `ModelHandler.predict`: the classifier sees the lower-cased headline. */
  function Predict(classifier: Classifier, headline: string): (r: int)
    ensures forall h :: Text.Lower(h) == Text.Lower(headline) ==> r == classifier(Text.Lower(h))
  {
    classifier(Text.Lower(headline))
  }

  /** Prediction ignores letter case: a headline and its lower-cased form
      get the same label, and so do any two headlines that agree up to case. */
  lemma PredictIgnoresCase(classifier: Classifier, h1: string, h2: string)
    ensures Predict(classifier, h1) == Predict(classifier, Text.Lower(h1))
    ensures Text.Lower(h1) == Text.Lower(h2) ==> Predict(classifier, h1) == Predict(classifier, h2)
  {
    Text.LowerIdempotent(h1);
  }
}
