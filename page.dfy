/**
 * The home page's state and its four asynchronous handlers: loading the list,
 * submitting a new weight, deleting one entry and clearing everything. Each await
 * on the network is an input: what `fetch` followed by `res.json()` produced.
 */
module Page {
  import opened Options
  import opened Numbers
  import opened Json
  import opened Store
  import opened View

  /** The parsed response body, as far as the page looks at it. */
  datatype ResponseJson =
    | JsonArray(items: seq<WeightEntry>)
    /** An object (or null); `error` is its `error` property when that is a string. */
    | JsonObject(error: Option<string>)
    | JsonOther

  /** The outcome of `await fetch(...)` and `await res.json()`: either one rejected,
      or the response's `ok` flag and its parsed body. */
  datatype Fetched = Threw | Answered(ok: bool, json: ResponseJson)

  const CommError := "Erro ao comunicar com o servidor."
  const LoadError := "Erro ao buscar dados."
  const BlankError := "Preencha data e peso."
  const SaveError := "Erro ao salvar peso."
  const DeleteError := "Erro ao excluir registro."
  const ClearError := "Erro ao limpar registros."

  /** `json?.error ?? fallback`. */
  function ErrorText(json: ResponseJson, fallback: string): (r: string)
    ensures json.JsonObject? && json.error.Some? ==> r == json.error.value
    ensures !json.JsonObject? || json.error.None? ==> r == fallback
  {
    if json.JsonObject? then json.error.GetOr(fallback) else fallback
  }

  /** `Array.isArray(json) ? json : []`. */
  function Listed(json: ResponseJson): (r: seq<WeightEntry>)
    ensures !json.JsonArray? ==> r == []
  {
    if json.JsonArray? then json.items else []
  }

  /** The list and the error text `carregarPesos` leaves, given the list shown before
      and the outcome of the GET. Any failure keeps the list shown; a success shows
      every entry received, exactly once each, entries of equal date in the order
      received, in date order when all dates parse, and clears the error. */
  function AfterLoad(previous: seq<WeightEntry>, parse: DateParser, fetched: Fetched): (r: (seq<WeightEntry>, string))
    ensures fetched.Threw? ==> r == (previous, CommError)
    ensures fetched.Answered? && !fetched.ok ==> r == (previous, ErrorText(fetched.json, LoadError))
    ensures fetched.Answered? && fetched.ok ==>
      && r.1 == []
      && multiset(r.0) == multiset(Listed(fetched.json))
      && (forall k :: WithKey(parse, r.0, k) == WithKey(parse, Listed(fetched.json), k))
      && (AllDated(parse, Listed(fetched.json)) ==> SortedByDate(parse, r.0))
  {
    match fetched
    case Threw => (previous, CommError)
    case Answered(ok, json) =>
      if !ok then (previous, ErrorText(json, LoadError))
      else
        var lista := Listed(json);
        SortStableAll(parse, lista);
        if AllDated(parse, lista) then SortSorted(parse, lista); (SortByDate(parse, lista), [])
        else (SortByDate(parse, lista), [])
  }

  /** The body `JSON.stringify({ date: data, weight: Number(peso) })` as the route
      parses it back: a weight that is NaN travels as null. */
  function SubmitBody(data: string, peso: string): (v: JsValue)
    ensures DateAndWeight(v) == Some((Str(data), FromNumber(NumberOfText(peso))))
  {
    Obj(map["date" := Str(data), "weight" := FromNumber(NumberOfText(peso))])
  }

  /** What the route's POST makes of a submitted body: it is accepted exactly when
      the weight text reads as a number other than 0, and then the entry it appends
      holds the date as typed and that number. */
  lemma SubmitReachesStore(data: string, peso: string)
    requires data != []
    ensures Fields(Some(SubmitBody(data, peso))).Some?
    ensures var f := Fields(Some(SubmitBody(data, peso))).value;
      && (!IsFalsy(f.0) && !IsFalsy(f.1) <==> NumberOfText(peso) != NaN && NumberOfText(peso) != Tenths(0))
      && !HasOwnToString(f.0) && !HasOwnToString(f.1)
      && TemplateText(f.0) == Some(data)
      && (NumberOfText(peso) != NaN ==> ToNumber(f.1) == Some(NumberOfText(peso)))
  {
  }

  class HomePage {
    /** The entries shown, the two form fields as typed, the loading flag and the
        error message (empty when there is none). */
    var pesos: seq<WeightEntry>
    var data: string
    var peso: string
    var carregando: bool
    var erro: string

    /** The state before the first load: nothing shown, loading. */
    constructor ()
      ensures pesos == [] && data == [] && peso == [] && carregando && erro == []
    {
      pesos := [];
      data := [];
      peso := [];
      carregando := true;
      erro := [];
    }

    /** `carregarPesos`: the list and error become what `AfterLoad` says, loading
        ends in every case and the form is left alone. */
    method LoadWeights(parse: DateParser, fetched: Fetched)
      modifies this
      ensures (pesos, erro) == AfterLoad(old(pesos), parse, fetched)
      ensures !carregando
      ensures data == old(data) && peso == old(peso)
    {
      carregando := true;
      erro := [];
      match fetched {
        case Threw =>
          erro := CommError;
        case Answered(ok, json) =>
          if !ok {
            erro := ErrorText(json, LoadError);
          } else {
            var lista := Listed(json);
            pesos := SortByDate(parse, lista);
          }
      }
      carregando := false;
    }

    /** `handleSubmit`: with an empty date or weight field nothing is sent and the
        page only shows its own message. Otherwise the body is posted; a failure
        shows the server's message or the page's, keeping the form; a success
        empties the form and reloads the list. */
    method Submit(parse: DateParser, posted: Fetched, reloaded: Fetched) returns (request: Option<JsValue>)
      modifies this
      ensures request.Some? <==> old(data) != [] && old(peso) != []
      ensures request.Some? ==> request.value == SubmitBody(old(data), old(peso))
      ensures request.None? ==>
        && erro == BlankError
        && pesos == old(pesos) && data == old(data) && peso == old(peso) && carregando == old(carregando)
      ensures request.Some? && posted.Threw? ==>
        && erro == CommError
        && pesos == old(pesos) && data == old(data) && peso == old(peso) && carregando == old(carregando)
      ensures request.Some? && posted.Answered? && !posted.ok ==>
        && erro == ErrorText(posted.json, SaveError)
        && pesos == old(pesos) && data == old(data) && peso == old(peso) && carregando == old(carregando)
      ensures request.Some? && posted.Answered? && posted.ok ==>
        && data == [] && peso == [] && !carregando
        && (pesos, erro) == AfterLoad(old(pesos), parse, reloaded)
    {
      erro := [];
      if data == [] || peso == [] {
        erro := BlankError;
        return None;
      }
      request := Some(SubmitBody(data, peso));
      match posted {
        case Threw =>
          erro := CommError;
        case Answered(ok, json) =>
          if !ok {
            erro := ErrorText(json, SaveError);
          } else {
            data := [];
            peso := [];
            LoadWeights(parse, reloaded);
          }
      }
    }

    /** `excluirRegistro`: the DELETE is sent without looking at its answer, then the
        list is reloaded; only a request that fails to go out shows an error, and
        then nothing is reloaded. */
    method DeleteEntry(parse: DateParser, sent: bool, reloaded: Fetched)
      modifies this
      ensures !sent ==>
        && erro == DeleteError
        && pesos == old(pesos) && data == old(data) && peso == old(peso) && carregando == old(carregando)
      ensures sent ==>
        && (pesos, erro) == AfterLoad(old(pesos), parse, reloaded)
        && !carregando && data == old(data) && peso == old(peso)
    {
      if !sent {
        erro := DeleteError;
      } else {
        LoadWeights(parse, reloaded);
      }
    }

    /** `limparTudo`: `DELETE ?all=true`, then a reload, with its own message when the
        request fails to go out. */
    method ClearAll(parse: DateParser, sent: bool, reloaded: Fetched)
      modifies this
      ensures !sent ==>
        && erro == ClearError
        && pesos == old(pesos) && data == old(data) && peso == old(peso) && carregando == old(carregando)
      ensures sent ==>
        && (pesos, erro) == AfterLoad(old(pesos), parse, reloaded)
        && !carregando && data == old(data) && peso == old(peso)
    {
      if !sent {
        erro := ClearError;
      } else {
        LoadWeights(parse, reloaded);
      }
    }
  }
}
