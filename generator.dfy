/**
 * The citation mapper of GeneratorService.run (app/apps/generator/services.py): it turns the
 * context documents the retrieval chain answered from into Reference records, one per document
 * and in the same order, with the 0-based page index made 1-based, and pairs them with the answer.
 *
 * The chain's response is an input value; the documents are the Page values of the Documents module.
 */
module Generator {
  import opened Wrappers
  import Documents

  type Page = Documents.Page

  /** A citation: the document's link, the text it was answered from and its 1-based page. */
  datatype Reference = Reference(link: string, text: string, page: int)

  /** What the endpoint returns. */
  datatype GeneratorSchema = GeneratorSchema(answer: string, references: seq<Reference>)

  /** The parts of the retrieval chain's response that run reads: `response["answer"]` and
      `response["context"]`. */
  datatype ChainResponse = ChainResponse(answer: string, context: seq<Page>)

  /** What building one reference can raise: a missing metadata key, `+ 1` on a string page, or
      the Reference schema refusing a link that is not a string. */
  datatype GeneratorError = KeyError(key: string) | TypeError | ValidationError

  /** The reference for one context document. The arguments are evaluated in the order they are
      written (link, text, page) before the Reference schema validates them. */
  function ReferenceOf(doc: Page): (r: Result<Reference, GeneratorError>)
    ensures r.Ok? <==> && "source" in doc.metadata && doc.metadata["source"].Str?
                       && "page" in doc.metadata && doc.metadata["page"].Int?
    ensures r.Ok? ==> && r.value.link == doc.metadata["source"].s
                      && r.value.text == doc.pageContent
                      && r.value.page == doc.metadata["page"].n + 1
    ensures "source" !in doc.metadata ==> r == Err(KeyError("source"))
    ensures "source" in doc.metadata && "page" !in doc.metadata ==> r == Err(KeyError("page"))
    ensures "source" in doc.metadata && "page" in doc.metadata && doc.metadata["page"].Str? ==> r == Err(TypeError)
    ensures "page" in doc.metadata && doc.metadata["page"].Int? && "source" in doc.metadata && doc.metadata["source"].Int?
            ==> r == Err(ValidationError)
  {
    if "source" !in doc.metadata then Err(KeyError("source"))
    else if "page" !in doc.metadata then Err(KeyError("page"))
    else match doc.metadata["page"]
      case Str(_) => Err(TypeError)
      case Int(n) =>
        match doc.metadata["source"]
        case Int(_) => Err(ValidationError)
        case Str(link) => Ok(Reference(link, doc.pageContent, n + 1))
  }

  /** Every document of docs yields a reference. */
  ghost predicate AllReferenced(docs: seq<Page>) {
    forall i :: 0 <= i < |docs| ==> ReferenceOf(docs[i]).Ok?
  }

  /** refs is the reference of each document of docs, position by position. */
  ghost predicate ReferencesOf(docs: seq<Page>, refs: seq<Reference>) {
    |refs| == |docs| && forall i :: 0 <= i < |docs| ==> ReferenceOf(docs[i]) == Ok(refs[i])
  }

  /** GeneratorService.run after the chain call: on success the answer is copied and there is one
      reference per context document, in order, duplicates included; otherwise the error of the
      first document that cannot be turned into a reference. */
  method Run(response: ChainResponse) returns (r: Result<GeneratorSchema, GeneratorError>)
    ensures r.Ok? <==> AllReferenced(response.context)
    ensures r.Ok? ==> r.value.answer == response.answer && ReferencesOf(response.context, r.value.references)
    ensures r.Err? ==> exists i :: && 0 <= i < |response.context|
                                   && ReferenceOf(response.context[i]) == Err(r.error)
                                   && AllReferenced(response.context[..i])
  {
    var references: seq<Reference> := [];
    var i := 0;
    while i < |response.context|
      invariant 0 <= i <= |response.context|
      invariant AllReferenced(response.context[..i])
      invariant ReferencesOf(response.context[..i], references)
    {
      var ref := ReferenceOf(response.context[i]);
      if ref.Err? {
        return Err(ref.error);
      }
      assert response.context[..i + 1] == response.context[..i] + [response.context[i]];
      references := references + [ref.value];
      i := i + 1;
    }
    assert response.context[..i] == response.context;
    return Ok(GeneratorSchema(response.answer, references));
  }

  /** Page numbers: every reference's page is one more than its document's 0-based page index,
      so a document loaded as page 0 is cited as page 1. */
  lemma ReferencePagesOneBased(docs: seq<Page>, refs: seq<Reference>, i: int)
    requires ReferencesOf(docs, refs) && 0 <= i < |docs|
    ensures "page" in docs[i].metadata && docs[i].metadata["page"].Int?
    ensures refs[i].page == docs[i].metadata["page"].n + 1
    ensures docs[i].metadata["page"].n >= 0 ==> refs[i].page >= 1
  {
    assert ReferenceOf(docs[i]) == Ok(refs[i]);
  }

  /** Duplicates are kept: two equal context documents give two equal references. */
  lemma DuplicatesKept(docs: seq<Page>, refs: seq<Reference>, i: int, j: int)
    requires ReferencesOf(docs, refs) && 0 <= i < |docs| && 0 <= j < |docs| && docs[i] == docs[j]
    ensures refs[i] == refs[j]
  {
    assert ReferenceOf(docs[i]) == Ok(refs[i]);
    assert ReferenceOf(docs[j]) == Ok(refs[j]);
  }
}
