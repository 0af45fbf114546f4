/** The observable effects of a run, in order: audit-log rows, notification mails, browser
    actions, the file move and database appends. A run's behaviour is its trace of these. */
module Audit {

  /** One call of `logger.log_to_database(code, severity, category, outcome, message, status,
      label)`. */
  datatype Entry = Entry(
    code: int, severity: string, category: string, outcome: string,
    message: string, status: string, tag: string)

  /** The process code every entry of this job carries. */
  const JobCode := 287
  const Category := "IVR Data"

  datatype Event =
    | Log(entry: Entry)
    | Email(subject: string, body: string)   // one call of `send_email`
    | BrowserClose
    | ClickDropdown
    | ClickOption(index: nat)
    | ClickApply
    | ClickDownload
    | MoveFile(source: string, target: string)
    | Append(rows: nat)                      // one `to_sql(..., if_exists='append')`

  /** The kind of an effect. `UiKind` covers the recorded actions of the download stage: the
      clicks inside the report frame and the move of the downloaded file. The login's fills and
      click and the page loads are not recorded as events. */
  datatype Kind = LogKind | EmailKind | CloseKind | UiKind | AppendKind

  function KindOf(e: Event): Kind {
    match e
    case Log(_) => LogKind
    case Email(_, _) => EmailKind
    case BrowserClose => CloseKind
    case Append(_) => AppendKind
    case _ => UiKind
  }

  /** How many events of kind `k` a trace holds. */
  function Count(t: seq<Event>, k: Kind): (n: nat)
    ensures n <= |t|
    ensures n == 0 <==> forall i :: 0 <= i < |t| ==> KindOf(t[i]) != k
  {
    if t == [] then 0 else (if KindOf(t[0]) == k then 1 else 0) + Count(t[1..], k)
  }

  lemma {:induction false} CountConcat(a: seq<Event>, b: seq<Event>, k: Kind)
    ensures Count(a + b, k) == Count(a, k) + Count(b, k)
  {
    if a == [] {
      assert a + b == b;
    } else {
      assert (a + b)[1..] == a[1..] + b;
      CountConcat(a[1..], b, k);
    }
  }

  lemma CountSingle(e: Event, k: Kind)
    ensures Count([e], k) == if KindOf(e) == k then 1 else 0
  {
    assert [e][1..] == [];
  }

  function Indicator(e: Event, k: Kind): nat {
    if KindOf(e) == k then 1 else 0
  }

  lemma CountTwo(a: Event, b: Event, k: Kind)
    ensures Count([a, b], k) == Indicator(a, k) + Indicator(b, k)
  {
    assert [a, b][1..] == [b];
    CountSingle(b, k);
  }

  lemma CountThree(a: Event, b: Event, c: Event, k: Kind)
    ensures Count([a, b, c], k) == Indicator(a, k) + Indicator(b, k) + Indicator(c, k)
  {
    assert [a, b, c][1..] == [b, c];
    CountTwo(b, c, k);
  }
}
