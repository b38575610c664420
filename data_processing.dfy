/**
 * `processRawData` (js/services/dataProcessing.js:4-22): run the note
 * pipeline over a document's text without a progress callback, then file
 * every note under the document by writing its `documentId`.
 */
module DataProcessing {
  import opened Wrappers
  import opened JsText
  import opened Notes
  import opened Chunker
  import opened GptService

  /**
   * The `forEach` of lines 11-14: write `documentId` into every note, in
   * order, and nothing else. The notes are values here, so the array the
   * source updates in place is a sequence reassigned one element at a time.
   */
  method AssignDocumentId(notes: seq<NoteRecord>, documentId: string) returns (stamped: seq<NoteRecord>)
    ensures |stamped| == |notes|
    ensures forall k :: 0 <= k < |notes| ==>
      SameExceptDocumentId(notes[k], stamped[k]) && stamped[k].documentId == Some(documentId)
  {
    stamped := notes;
    var k := 0;
    while k < |stamped|
      invariant 0 <= k <= |stamped| == |notes|
      invariant forall j :: 0 <= j < k ==>
        SameExceptDocumentId(notes[j], stamped[j]) && stamped[j].documentId == Some(documentId)
      invariant forall j :: k <= j < |notes| ==> stamped[j] == notes[j]
    {
      stamped := stamped[k := stamped[k].(documentId := Some(documentId))];
      k := k + 1;
    }
  }

  /**
   * The try/catch of lines 7-21: on success the pipeline's notes, with the
   * document id written; a pipeline error is passed on unchanged.
   */
  method StampOrRethrow<E>(generated: Result<seq<NoteRecord>, E>, documentId: string)
    returns (r: Result<seq<NoteRecord>, E>)
    ensures generated.Failure? ==> r == generated
    ensures generated.Success? ==> r.Success? && |r.value| == |generated.value|
    ensures generated.Success? ==> forall k :: 0 <= k < |generated.value| ==>
      SameExceptDocumentId(generated.value[k], r.value[k]) && r.value[k].documentId == Some(documentId)
  {
    match generated
    case Failure(_) =>
      r := generated;
    case Success(stickyNotes) =>
      var stamped := AssignDocumentId(stickyNotes, documentId);
      r := Success(stamped);
  }

  /**
   * `processRawData` as a whole: the notes of the run over `rawData`, same
   * number and same order, each filed under `documentId`, each still
   * carrying `documentName` and its trimmed fields.
   */
  method ProcessRawData(env: Env, rawData: string, documentId: string, documentName: string)
    returns (r: Result<seq<NoteRecord>, string>)
    ensures r.Success?
    ensures |r.value| == |RunOver(env, rawData, documentName, false, Windows(rawData, 0)).stickies|
    ensures forall k :: 0 <= k < |r.value| ==>
      SameExceptDocumentId(RunOver(env, rawData, documentName, false, Windows(rawData, 0)).stickies[k], r.value[k])
    ensures forall k :: 0 <= k < |r.value| ==>
      && r.value[k].documentId == Some(documentId)
      && r.value[k].documentName == documentName
      && Trimmed(r.value[k].source) && Trimmed(r.value[k].content) && Trimmed(r.value[k].insight)
  {
    var stickyNotes, _, _ := ProcessAndGenerateStickies(env, rawData, documentName, false);
    r := StampOrRethrow(Success(stickyNotes), documentId);
    forall k | 0 <= k < |stickyNotes|
      ensures FromDocument(stickyNotes[k], documentName)
    {
      RunNotesFromDocument(env, rawData, documentName, false, Windows(rawData, 0), k);
    }
  }
}
