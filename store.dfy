/**
 * The file-backed weight store of the `/api/weights` route: the file
 * `data/weights.csv` as a field of a class, the three file operations that change
 * it, and the GET, POST and DELETE handlers that sequence them.
 */
module Store {
  import opened Options
  import opened Text
  import opened Numbers
  import opened Json
  import opened Csv

  datatype Body =
    | EntryList(entries: seq<Entry>)
    | Message(message: string)
    | Failure(error: string)
    /** An exception the handler does not catch; the framework answers 500. */
    | Unhandled

  datatype Response = Response(status: int, body: Body)

  /** The DELETE filter's test `d.date === date && d.weight === Number(weight)`:
      the date must be that very string and the weight a number equal to the
      target, so an entry whose weight is NaN never matches. */
  function Matches(e: Entry, date: JsValue, weight: Num): (r: bool)
    ensures r <==> date == Str(e.date) && e.weight == weight && weight != NaN
  {
    date == Str(e.date) && StrictEquals(e.weight, weight)
  }

  /** Some entry carries the date `date`: only for such an entry does the filter's
      `&&` go on to evaluate `Number(weight)`. */
  predicate DateOccurs(data: seq<Entry>, date: JsValue) {
    exists i :: 0 <= i < |data| && date == Str(data[i].date)
  }

  /** `data.filter((d) => !(...))`: keeps, in order, every entry that does not match. */
  function RemoveMatching(data: seq<Entry>, date: JsValue, weight: Num): (r: seq<Entry>)
    ensures |r| <= |data|
    ensures forall i :: 0 <= i < |r| ==> !Matches(r[i], date, weight)
    ensures forall i :: 0 <= i < |r| ==> r[i] in data
  {
    if data == [] then []
    else
      (if Matches(data[0], date, weight) then [] else [data[0]])
      + RemoveMatching(data[1..], date, weight)
  }

  /** Filtering works entry by entry, so survivors keep their relative order. */
  lemma {:induction false} RemoveMatchingConcat(a: seq<Entry>, b: seq<Entry>, date: JsValue, weight: Num)
    ensures RemoveMatching(a + b, date, weight) == RemoveMatching(a, date, weight) + RemoveMatching(b, date, weight)
    decreases |a|
  {
    if a == [] {
      assert a + b == b;
    } else {
      assert (a + b)[1..] == a[1..] + b;
      RemoveMatchingConcat(a[1..], b, date, weight);
    }
  }

  /** Every matching entry is removed, all of its copies; every other entry keeps
      all of its copies. */
  lemma {:induction false} RemoveMatchingCounts(data: seq<Entry>, date: JsValue, weight: Num, e: Entry)
    ensures multiset(RemoveMatching(data, date, weight))[e]
            == if Matches(e, date, weight) then 0 else multiset(data)[e]
    decreases |data|
  {
    if data != [] {
      RemoveMatchingCounts(data[1..], date, weight, e);
      var head := if Matches(data[0], date, weight) then [] else [data[0]];
      var rest := RemoveMatching(data[1..], date, weight);
      assert RemoveMatching(data, date, weight) == head + rest;
      assert multiset(head + rest) == multiset(head) + multiset(rest);
      assert data == [data[0]] + data[1..];
      assert multiset(data) == multiset([data[0]]) + multiset(data[1..]);
    }
  }

  /** When nothing matches, the list is unchanged. */
  lemma {:induction false} RemoveMatchingNone(data: seq<Entry>, date: JsValue, weight: Num)
    requires forall i :: 0 <= i < |data| ==> !Matches(data[i], date, weight)
    ensures RemoveMatching(data, date, weight) == data
    decreases |data|
  {
    if data != [] {
      RemoveMatchingNone(data[1..], date, weight);
      assert data == [data[0]] + data[1..];
    }
  }

  /** Removing what was read and writing the rest back: the file then reads as the
      filtered list. */
  lemma RemoveAndRewrite(content: string, date: JsValue, weight: Num)
    ensures Parse(Render(RemoveMatching(Parse(content), date, weight)))
            == RemoveMatching(Parse(content), date, weight)
  {
    ParseClean(content);
    var kept := RemoveMatching(Parse(content), date, weight);
    forall i | 0 <= i < |kept| ensures CleanDate(kept[i].date) {
      var j :| 0 <= j < |Parse(content)| && Parse(content)[j] == kept[i];
    }
    ParseRender(kept);
  }

  /** The file as `ensureCsvFileExists` leaves it. */
  function Ensured(present: bool, content: string): (r: string)
    ensures HasHeader(r) || (present && r == content)
    ensures present ==> r == content
  {
    if present then content else InitialContent
  }

  /** The request body as the handlers see it after `await request.json()` and the
      destructuring: None when the body is not JSON or is null. */
  function Fields(body: Option<JsValue>): Option<(JsValue, JsValue)> {
    if body.None? then None else DateAndWeight(body.value)
  }

  class WeightStore {
    /** Whether `data/weights.csv` exists, and its text (empty when it does not). */
    var present: bool
    var content: string

    /** The store's own invariant: a file it has written starts with the header. */
    ghost predicate Valid()
      reads this
    {
      (present ==> HasHeader(content)) && (!present ==> content == [])
    }

    /** The file as it is found when the process starts. */
    constructor (found: bool, initial: string)
      ensures present == found
      ensures content == if found then initial else []
    {
      present := found;
      content := if found then initial else [];
    }

    /** `ensureCsvFileExists`: an absent file is created holding just the header line
        and a line break; a present file is left alone, so a second call changes
        nothing. */
    method EnsureFileExists()
      modifies this
      ensures present
      ensures content == Ensured(old(present), old(content))
      ensures old(present) ==> unchanged(this)
      ensures old(Valid()) ==> Valid()
    {
      if !present {
        present := true;
        content := InitialContent;
      }
    }

    /** `fs.readFileSync`; the handlers only read after `ensureCsvFileExists`. */
    method Read() returns (text: string)
      requires present
      ensures text == content
    {
      text := content;
    }

    /** `writeFullCsv(data)`: the file is replaced by the header and the entry lines. */
    method WriteFull(data: seq<Entry>)
      modifies this
      ensures present && content == Render(data)
      ensures Valid()
    {
      present := true;
      content := Render(data);
    }

    /** `appendLineToCsv(date, weight)`: a line break and `date,weight` are added at
        the end (`appendFileSync` creates an absent file). */
    method AppendLine(date: string, weight: Num)
      modifies this
      ensures present
      ensures content == (if old(present) then old(content) else []) + "\n" + EntryLine(Entry(date, weight))
      ensures old(present) && old(Valid()) ==> Valid()
    {
      var line := EntryLine(Entry(date, weight));
      var before := if present then content else [];
      present := true;
      content := before + "\n" + line;
      assert before <= content;
    }

    /** GET: make sure the file exists and answer with its entries. */
    method Get() returns (res: Response)
      modifies this
      ensures present && content == Ensured(old(present), old(content))
      ensures old(present) ==> unchanged(this)
      ensures res == Response(200, EntryList(Parse(content)))
    {
      EnsureFileExists();
      var csv := Read();
      res := Response(200, EntryList(Parse(csv)));
    }

    /** POST: a body that is not JSON or is null fails with 500; a falsy `date` or
        `weight` (missing, "", 0, NaN, null, false) fails with 400; in both cases the
        file is untouched. Otherwise the file is created if need be; a date or weight
        that cannot be converted (an object with its own `toString`) then fails with
        500 before anything is appended. Any other request appends the line
        `${date},${Number(weight)}`, and the entry list grows by exactly that entry
        when the date is clean. Negative weights pass. */
    method Post(body: Option<JsValue>) returns (res: Response)
      modifies this
      ensures Fields(body).None? ==> res == Response(500, Failure("Erro ao salvar")) && unchanged(this)
      ensures Fields(body).Some? && (IsFalsy(Fields(body).value.0) || IsFalsy(Fields(body).value.1))
        ==> res == Response(400, Failure("Data e peso obrigatórios")) && unchanged(this)
      ensures Fields(body).Some? && !IsFalsy(Fields(body).value.0) && !IsFalsy(Fields(body).value.1)
              && (HasOwnToString(Fields(body).value.0) || HasOwnToString(Fields(body).value.1))
        ==> && res == Response(500, Failure("Erro ao salvar"))
            && present && content == Ensured(old(present), old(content))
      ensures Fields(body).Some? && !IsFalsy(Fields(body).value.0) && !IsFalsy(Fields(body).value.1)
              && !HasOwnToString(Fields(body).value.0) && !HasOwnToString(Fields(body).value.1)
        ==> var added := Entry(TemplateText(Fields(body).value.0).value, ToNumber(Fields(body).value.1).value);
            && res == Response(201, Message("Peso salvo"))
            && present
            && content == Ensured(old(present), old(content)) + "\n" + EntryLine(added)
            && (old(Valid()) && CleanDate(added.date)
                ==> Parse(content) == Parse(Ensured(old(present), old(content))) + [added])
      ensures old(Valid()) ==> Valid()
    {
      var fields := Fields(body);
      if fields.None? {
        return Response(500, Failure("Erro ao salvar"));
      }
      var (date, weight) := fields.value;
      if IsFalsy(date) || IsFalsy(weight) {
        return Response(400, Failure("Data e peso obrigatórios"));
      }
      ghost var wasValid := Valid();
      EnsureFileExists();
      var number := ToNumber(weight);
      var text := TemplateText(date);
      if number.None? || text.None? {
        return Response(500, Failure("Erro ao salvar"));
      }
      ghost var before := content;
      AppendLine(text.value, number.value);
      if wasValid && CleanDate(text.value) {
        ParseAppend(before, Entry(text.value, number.value));
      }
      res := Response(201, Message("Peso salvo"));
    }

    /** DELETE: the file is created if need be and read first. With `?all=true` it is
        rewritten with no entries, whatever the body. Otherwise a body that is not
        JSON or is null is an uncaught exception; a falsy `date` or an undefined
        `weight` fails with 400. A weight that cannot be converted to a number
        throws, uncaught, as soon as the filter reaches an entry carrying the date,
        and the file is not rewritten; when no entry carries it, every entry is kept.
        Any other request rewrites the file with every entry equal in date and
        weight removed, answering 200 even when nothing matched. */
    method Delete(all: Option<string>, body: Option<JsValue>) returns (res: Response)
      modifies this
      ensures present
      ensures all == Some("true")
        ==> && res == Response(200, Message("Todos os registros foram apagados."))
            && content == InitialContent
            && Parse(content) == []
      ensures all != Some("true") && Fields(body).None?
        ==> res == Response(500, Unhandled) && content == Ensured(old(present), old(content))
      ensures all != Some("true") && Fields(body).Some?
              && (IsFalsy(Fields(body).value.0) || Fields(body).value.1 == Undefined)
        ==> && res == Response(400, Failure("Informe data e peso para deletar."))
            && content == Ensured(old(present), old(content))
      ensures all != Some("true") && Fields(body).Some?
              && !IsFalsy(Fields(body).value.0) && Fields(body).value.1 != Undefined
              && HasOwnToString(Fields(body).value.1)
        ==> if DateOccurs(Parse(Ensured(old(present), old(content))), Fields(body).value.0)
            then res == Response(500, Unhandled) && content == Ensured(old(present), old(content))
            else && res == Response(200, Message("Registro removido"))
                 && content == Render(Parse(Ensured(old(present), old(content))))
                 && Parse(content) == Parse(Ensured(old(present), old(content)))
      ensures all != Some("true") && Fields(body).Some?
              && !IsFalsy(Fields(body).value.0) && Fields(body).value.1 != Undefined
              && !HasOwnToString(Fields(body).value.1)
        ==> var kept := RemoveMatching(Parse(Ensured(old(present), old(content))),
                                       Fields(body).value.0, ToNumber(Fields(body).value.1).value);
            && res == Response(200, Message("Registro removido"))
            && content == Render(kept)
            && Parse(content) == kept
      ensures old(Valid()) ==> Valid()
    {
      EnsureFileExists();
      var csv := Read();
      var data := Parse(csv);
      if all == Some("true") {
        WriteFull([]);
        ParseInitial();
        return Response(200, Message("Todos os registros foram apagados."));
      }
      var fields := Fields(body);
      if fields.None? {
        return Response(500, Unhandled);
      }
      var (date, weight) := fields.value;
      if IsFalsy(date) || weight == Undefined {
        return Response(400, Failure("Informe data e peso para deletar."));
      }
      var target := ToNumber(weight);
      if target.None? {
        if DateOccurs(data, date) {
          return Response(500, Unhandled);
        }
        WriteFull(data);
        RenderParse(csv);
        return Response(200, Message("Registro removido"));
      }
      var filtered := RemoveMatching(data, date, target.value);
      WriteFull(filtered);
      RemoveAndRewrite(csv, date, target.value);
      res := Response(200, Message("Registro removido"));
    }
  }

  /** A DELETE whose target matches no entry leaves the entry list as it was. */
  lemma DeleteNothingMatches(content: string, date: JsValue, weight: Num)
    requires forall i :: 0 <= i < |Parse(content)| ==> !Matches(Parse(content)[i], date, weight)
    ensures Parse(Render(RemoveMatching(Parse(content), date, weight))) == Parse(content)
  {
    RemoveMatchingNone(Parse(content), date, weight);
    RenderParse(content);
  }
}
