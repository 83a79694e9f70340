/** The organization routes: `POST /` creates an organization unless one of
    the same name exists, `GET /` lists them, `GET /:id` fetches one. */
module Organizations {
  import opened Common
  import opened Models
  import Db

  /** No two organizations share a name. The schema declares no index; only
      the check in `POST /` keeps this. */
  predicate NamesUnique(orgs: seq<Organization>) {
    forall i, j :: 0 <= i < j < |orgs| ==> orgs[i].name != orgs[j].name
  }

  predicate NameTaken(docs: seq<Organization>, name: string) {
    exists i :: 0 <= i < |docs| && docs[i].name == name
  }

  datatype CreateResponse = OrganizationExists | OrganizationCreated {
    function Status(): int { if OrganizationCreated? then 200 else 400 }
  }

  /** `POST /`: the request body is stored whole when its name is free. */
  function Creation(docs: seq<Organization>, body: Organization): (r: (seq<Organization>, CreateResponse))
    ensures r.1.OrganizationExists? <==> NameTaken(docs, body.name)
    ensures r.1.OrganizationExists? ==> r.0 == docs
    ensures r.1.OrganizationCreated? ==> r.0 == docs + [body]
  {
    if exists i :: 0 <= i < |docs| && docs[i].name == body.name then (docs, OrganizationExists)
    else (docs + [body], OrganizationCreated)
  }

  /** Creating keeps names unique. */
  lemma CreationKeepsNamesUnique(docs: seq<Organization>, body: Organization)
    requires NamesUnique(docs)
    ensures NamesUnique(Creation(docs, body).0)
  {
  }

  /** Sending the same body twice creates one organization; the second reply
      is 400. */
  lemma {:induction false} CreationIdempotent(docs: seq<Organization>, body: Organization)
    ensures var once := Creation(docs, body).0;
            Creation(once, body) == (once, OrganizationExists)
  {
    var once := Creation(docs, body).0;
    if !NameTaken(docs, body.name) {
      assert once[|docs|].name == body.name;
    }
  }

  /** `Organization.find()` without a sort: every stored organization, each
      once, in an order MongoDB does not promise (the model returns them as
      stored). */
  function FindAll(docs: seq<Organization>): (r: seq<Organization>)
    ensures multiset(r) == multiset(docs)
  {
    docs
  }

  /** The reply of `GET /:id`: the document or `null` with 200, or 500 when
      the id is not an ObjectId. */
  datatype FetchResponse = Fetched(org: Option<Organization>) | FetchFailed {
    function Status(): int { if Fetched? then 200 else 500 }
  }

  /** `Organization.findById(req.params.id)`. */
  function FindById(docs: seq<Organization>, id: Db.IdParam): (r: FetchResponse)
    ensures r.FetchFailed? <==> id.Malformed?
    ensures r.Fetched? ==> (r.org.Some? <==> id.index < |docs|)
    ensures r.Fetched? && r.org.Some? ==> r.org.value == docs[id.index]
  {
    match id
    case Malformed => FetchFailed
    case ObjectId(i) => Fetched(if i < |docs| then Some(docs[i]) else None)
  }

  /** A created organization is fetched by its new id, those stored before
      it still are, and `GET /` lists it once more than before. */
  lemma {:induction false} CreatedIsFetchable(docs: seq<Organization>, body: Organization, i: nat)
    requires Creation(docs, body).1.OrganizationCreated?
    requires i < |docs|
    ensures var after := Creation(docs, body).0;
            FindById(after, Db.ObjectId(|docs|)) == Fetched(Some(body))
            && FindById(after, Db.ObjectId(i)) == FindById(docs, Db.ObjectId(i))
            && multiset(FindAll(after)) == multiset(FindAll(docs)) + multiset{body}
  {
  }

  /** `POST /` on the organization collection. */
  method Create(store: Db.Collection<Organization>, body: Organization) returns (resp: CreateResponse)
    modifies store
    ensures (store.docs, resp) == Creation(old(store.docs), body)
  {
    var taken := exists i :: 0 <= i < |store.docs| && store.docs[i].name == body.name;
    if taken {
      return OrganizationExists;
    }
    store.Insert(body);
    resp := OrganizationCreated;
  }
}
