/** The document repository: an encrypted file holding the list of document records, each with
    an `id`, free-form fields copied from the request and creation/update timestamps. The file
    is modelled by the list it decrypts to. */
module DocumentModel {
  import opened JsValues
  import opened Records

  /** `generateUniqueId()` of the document repository. */
  function GenerateUniqueId(millis: nat, random: string): (id: string)
    ensures |id| >= 4 && id[..4] == "doc_"
  {
    UniqueId("doc_", millis, random)
  }

  class DocumentStore {
    /** The document list the repository file currently holds. */
    var documents: seq<Object>

    /** `readDocumentsFile()`: a missing file reads as the empty list. */
    constructor(file: Option<seq<Object>>)
      ensures documents == file.GetOr([])
    {
      documents := file.GetOr([]);
    }

    /** `getAllDocuments()` */
    function GetAllDocuments(): (r: seq<Object>)
      reads this
      ensures r == documents
    {
      documents
    }

    /** `getDocumentById(id)`: the first document whose id is `=== id`, if any. */
    function GetDocumentById(id: Value): (r: Option<Object>)
      reads this
      ensures r.None? <==> forall k :: 0 <= k < |documents| ==> !HasId(documents[k], id)
      ensures r.Some? ==> r.value in documents && HasId(r.value, id)
      ensures r.Some? ==> exists k :: 0 <= k < |documents| && documents[k] == r.value && forall j :: 0 <= j < k ==> !HasId(documents[j], id)
    {
      Find(documents, id)
    }

    /** `createDocument(data)`: appends and returns a document with a generated id (unless
        `data` supplies one) and `now` as both timestamps. */
    method CreateDocument(data: Object, millis: nat, random: string, now: string) returns (r: Object)
      modifies this
      ensures r == NewRecord(data, GenerateUniqueId(millis, random), now)
      ensures documents == old(documents) + [r]
    {
      var id := GenerateUniqueId(millis, random);
      r := NewRecord(data, id, now);
      documents := documents + [r];
    }

    /** `updateDocument(id, data)` */
    method UpdateDocument(id: Value, data: Object, now: string) returns (r: Option<Object>)
      modifies this
      ensures r == UpdateOutcome(old(documents), id, data, now).result
      ensures documents == UpdateOutcome(old(documents), id, data, now).records
    {
      var o := UpdateOutcome(documents, id, data, now);
      r := o.result;
      documents := o.records;
    }

    /** `deleteDocument(id)` */
    method DeleteDocument(id: Value) returns (r: Option<Object>)
      modifies this
      ensures r == DeleteOutcome(old(documents), id).result
      ensures documents == DeleteOutcome(old(documents), id).records
    {
      var o := DeleteOutcome(documents, id);
      r := o.result;
      documents := o.records;
    }
  }
}
