/**
 * Column resolution (app.py:8-9, 28-57): normalising header names, finding
 * the two order-identifier columns by exact normalised name and the System-1
 * customer column by a first-match substring scan.
 */
module Columns {
  import opened Wrappers
  import opened Text

  /** Normalised name of System 1's identifier column ('Pedido Print One'). */
  const OrderColumn1 := "pedido print one"
  /** Normalised name of System 2's identifier column ('Número do Pedido'). */
  const OrderColumn2 := "número do pedido"
  /** A customer header must contain this ... */
  const CustomerMarker := "cliente"
  /** ... and must not contain this. */
  const CustomerExclusion := "cliente - nome"

  /** The label both identifier columns are renamed to (app.py:52-53). */
  const OrderLabel := "Numero_Pedido"

  /**
   * The failures, in the order they arise: the three of column resolution
   * (app.py:32-45), then the error pandas raises at app.py:60 or app.py:61
   * when a table already had a column labelled 'Numero_Pedido', so that the
   * rename leaves two columns of that label; last the `KeyError` of app.py:67
   * for a System-1 table without rows, whose empty filter mask pandas reads
   * as a list of column labels, so that the filtered frame has no columns.
   */
  datatype Error =
    | MissingOrderColumn1 | MissingOrderColumn2 | MissingCustomerColumn
    | OrderLabelTaken1 | OrderLabelTaken2 | NoRowsInSystem1

  /** The advice closing both identifier-column messages. */
  const CaseHint := " (verifique maiúsculas/minúsculas e espaços)."

  /** The opening shared by the three column messages, naming system `n`. */
  function Sheet(n: char): string {
    "A planilha do Sistema " + [n] + " não contém "
  }

  /** The message of the `ValueError` raised for each failure (app.py:33, 35, 45). */
  function Message(e: Error): string {
    match e
    case MissingOrderColumn1 => Sheet('1') + "a coluna " + "'Pedido Print One'" + CaseHint
    case MissingOrderColumn2 => Sheet('2') + "a coluna " + "'Número do Pedido'" + CaseHint
    case MissingCustomerColumn =>
      Sheet('1') + "uma coluna com " + "'Cliente'" + " no nome (exceto 'Cliente - Nome')."
    case OrderLabelTaken1 | OrderLabelTaken2 =>
      "The truth value of a Series is ambiguous."
    case NoRowsInSystem1 => "'" + OrderLabel + "'"
  }

  /** The message for a missing System-1 identifier column names 'Pedido Print One'. */
  lemma MessageNamesOrderColumn1()
    ensures Contains(Message(MissingOrderColumn1), "'Pedido Print One'")
  {
    var a := Sheet('1') + "a coluna ";
    assert Message(MissingOrderColumn1)[|a|..][..18] == "'Pedido Print One'";
  }

  /** The message for a missing System-2 identifier column names 'Número do Pedido'. */
  lemma MessageNamesOrderColumn2()
    ensures Contains(Message(MissingOrderColumn2), "'Número do Pedido'")
  {
    var a := Sheet('2') + "a coluna ";
    assert Message(MissingOrderColumn2)[|a|..][..18] == "'Número do Pedido'";
  }

  /** The message for a missing customer column names 'Cliente'. */
  lemma MessageNamesCustomerColumn()
    ensures Contains(Message(MissingCustomerColumn), "'Cliente'")
  {
    var a := Sheet('1') + "uma coluna com ";
    assert Message(MissingCustomerColumn)[|a|..][..9] == "'Cliente'";
  }

  /**
   * Which failure a message reports, read off three characters; 0 for none
   * of them. `MessageKindOf` shows that it inverts `Message` up to the two
   * pandas errors, which is the injectivity argument of `MessagesDiffer`:
   * the openings differ at character 0, the system number at character 22,
   * and the two System-1 column messages at character 35.
   */
  function MessageKind(m: string): nat {
    if |m| == 0 then 0
    else if m[0] == '\'' then 5
    else if m[0] == 'T' then 4
    else if |m| < 36 || m[0] != 'A' then 0
    else if m[22] == '2' then 2
    else if m[35] == 'a' then 1
    else 3
  }

  /** The code `MessageKind` reads back; the two pandas errors share code 4. */
  function KindCode(e: Error): nat {
    match e
    case MissingOrderColumn1 => 1
    case MissingOrderColumn2 => 2
    case MissingCustomerColumn => 3
    case OrderLabelTaken1 | OrderLabelTaken2 => 4
    case NoRowsInSystem1 => 5
  }

  /** Every message reads back as the code of its failure. */
  lemma MessageKindOf(e: Error)
    ensures MessageKind(Message(e)) == KindCode(e)
  {
    assert Sheet('1')[0] == 'A' && Sheet('1')[22] == '1' && Sheet('2')[22] == '2' && |Sheet('1')| == 35;
    match e
    case MissingOrderColumn1 =>
      var m := Message(e);
      assert m[0] == 'A' && m[22] == '1' && m[35] == 'a';
    case MissingOrderColumn2 =>
      var m := Message(e);
      assert m[0] == 'A' && m[22] == '2';
    case MissingCustomerColumn =>
      var m := Message(e);
      assert m[0] == 'A' && m[22] == '1' && m[35] == 'u';
    case OrderLabelTaken1 =>
      assert Message(e)[0] == 'T';
    case OrderLabelTaken2 =>
      assert Message(e)[0] == 'T';
    case NoRowsInSystem1 =>
      assert Message(e)[0] == '\'';
  }

  /** The six failures show five different messages: only the two pandas errors share one. */
  lemma MessagesDiffer(e1: Error, e2: Error)
    requires Message(e1) == Message(e2)
    ensures e1 == e2 || ((e1.OrderLabelTaken1? || e1.OrderLabelTaken2?) && (e2.OrderLabelTaken1? || e2.OrderLabelTaken2?))
  {
    MessageKindOf(e1);
    MessageKindOf(e2);
  }

  /** One header name with surrounding whitespace removed and lower-cased. */
  function NormalizeName(name: string): string {
    Lower(Strip(name))
  }

  /** `normalizar_nome_coluna` (app.py:8-9): every header normalised, in order. */
  function NormalizeColumns(cols: seq<string>): seq<string> {
    seq(|cols|, i requires 0 <= i < |cols| => NormalizeName(cols[i]))
  }

  /** Normalisation ignores case and surrounding whitespace: it is idempotent. */
  lemma NormalizeNameIdempotent(name: string)
    ensures NormalizeName(NormalizeName(name)) == NormalizeName(name)
  {
    var s := Strip(name);
    StripLower(s);
    StripIdempotent(name);
    LowerIdempotent(s);
  }

  /** Whitespace around a header does not change its normalised name. */
  lemma NormalizeIgnoresPadding(w1: string, name: string, w2: string)
    requires AllSpace(w1) && AllSpace(w2)
    ensures NormalizeName(w1 + name + w2) == NormalizeName(name)
  {
    StripIgnoresPadding(w1, name, w2);
  }

  /** The customer-column test of app.py:40, on a normalised header name. */
  predicate IsCustomerName(n: string) {
    Contains(n, CustomerMarker) && !Contains(n, CustomerExclusion)
  }

  /** A name without the letter 'l' cannot contain 'cliente'. */
  lemma NoMarkerWithoutL(n: string)
    requires 'l' !in n
    ensures !Contains(n, CustomerMarker)
  {
    forall i | 0 <= i <= |n| ensures !(CustomerMarker <= n[i..]) {
      if i + 1 < |n| {
        assert n[i..][1] == n[i + 1] && n[i + 1] in n;
      }
    }
  }

  /** The position of the first customer name at or after `from`. */
  function FirstCustomerFrom(norm: seq<string>, from: nat): (r: Option<nat>)
    requires from <= |norm|
    ensures r.Some? ==> from <= r.value < |norm| && IsCustomerName(norm[r.value])
                        && forall j :: from <= j < r.value ==> !IsCustomerName(norm[j])
    ensures r.None? <==> forall j :: from <= j < |norm| ==> !IsCustomerName(norm[j])
    decreases |norm| - from
  {
    if from == |norm| then None
    else if IsCustomerName(norm[from]) then Some(from)
    else FirstCustomerFrom(norm, from + 1)
  }

  /** The position of the first customer name in declared order. */
  function FirstCustomer(norm: seq<string>): Option<nat> {
    FirstCustomerFrom(norm, 0)
  }

  /**
   * The scan of app.py:38-42: walks the headers in declared order together
   * with their normalised names and stops at the first customer header.
   */
  method FindCustomerColumn(cols: seq<string>) returns (name: Option<string>)
    ensures var first := FirstCustomer(NormalizeColumns(cols));
            && (first.None? ==> name == None)
            && (first.Some? ==> name == Some(cols[first.value]))
  {
    var norm := NormalizeColumns(cols);
    name := None;
    var i := 0;
    while i < |cols|
      invariant 0 <= i <= |cols|
      invariant name == None
      invariant forall j :: 0 <= j < i ==> !IsCustomerName(norm[j])
    {
      if Contains(norm[i], CustomerMarker) && !Contains(norm[i], CustomerExclusion) {
        name := Some(cols[i]);
        break;
      }
      i := i + 1;
    }
  }

  /** The position of the last name equal to `key`. */
  function LastIndex(norm: seq<string>, key: string): (r: Option<nat>)
    ensures r.Some? ==> r.value < |norm| && norm[r.value] == key
                        && forall j :: r.value < j < |norm| ==> norm[j] != key
    ensures r.None? <==> key !in norm
  {
    if norm == [] then None
    else if norm[|norm| - 1] == key then Some(|norm| - 1)
    else
      var r := LastIndex(norm[..|norm| - 1], key);
      assert norm == norm[..|norm| - 1] + [norm[|norm| - 1]];
      r
  }

  /**
   * `dict(zip(normalised, original))` (app.py:48-49): built by successive
   * insertion, so each normalised name maps to the LAST header carrying it.
   */
  method OriginalNames(cols: seq<string>) returns (m: map<string, string>)
    ensures forall k :: k in m <==> k in NormalizeColumns(cols)
    ensures forall k :: k in m ==> m[k] == cols[LastIndex(NormalizeColumns(cols), k).value]
  {
    var norm := NormalizeColumns(cols);
    m := map[];
    var i := 0;
    while i < |cols|
      invariant 0 <= i <= |cols|
      invariant forall k :: k in m <==> k in norm[..i]
      invariant forall k :: k in m ==> m[k] == cols[LastIndex(norm[..i], k).value]
    {
      assert norm[..i + 1][..i] == norm[..i];
      m := m[norm[i] := cols[i]];
      i := i + 1;
    }
    assert norm[..|cols|] == norm;
  }

  /** Looking a column up by its label: the first position holding `name`. */
  function IndexOf(cols: seq<string>, name: string): (i: nat)
    requires name in cols
    ensures i < |cols| && cols[i] == name
    ensures forall j :: 0 <= j < i ==> cols[j] != name
  {
    if cols[0] == name then 0 else 1 + IndexOf(cols[1..], name)
  }

  /** No label occurs twice (pandas' spreadsheet reader de-duplicates headers). */
  predicate DistinctLabels(cols: seq<string>) {
    forall i, j :: 0 <= i < j < |cols| ==> cols[i] != cols[j]
  }

  /** With distinct labels, looking up the label at position `i` finds `i`. */
  lemma IndexOfDistinct(cols: seq<string>, i: nat)
    requires DistinctLabels(cols) && i < |cols|
    ensures IndexOf(cols, cols[i]) == i
  {
    var j := IndexOf(cols, cols[i]);
    assert !(i < j) && !(j < i);
  }

  /** Where the three required columns are. */
  datatype Resolved = Resolved(id1: nat, id2: nat, customer: nat)

  /**
   * What column resolution yields: the System-1 error first, then the
   * System-2 error, then the customer error; otherwise the last System-1
   * header normalising to 'pedido print one', the last System-2 header
   * normalising to 'número do pedido' and the first customer header.
   */
  function Resolve(cols1: seq<string>, cols2: seq<string>): (r: Result<Resolved, Error>)
    ensures r.Ok? ==> r.value.id1 < |cols1| && r.value.id2 < |cols2| && r.value.customer < |cols1|
  {
    var norm1 := NormalizeColumns(cols1);
    var norm2 := NormalizeColumns(cols2);
    var id1 := LastIndex(norm1, OrderColumn1);
    var id2 := LastIndex(norm2, OrderColumn2);
    var customer := FirstCustomer(norm1);
    if id1.None? then Err(MissingOrderColumn1)
    else if id2.None? then Err(MissingOrderColumn2)
    else if customer.None? then Err(MissingCustomerColumn)
    else Ok(Resolved(id1.value, id2.value, customer.value))
  }

  /**
   * Column resolution as app.py:28-57 performs it: normalise, check the two
   * identifier columns, scan for the customer column, build the name maps,
   * and look the chosen labels up.
   */
  method ResolveColumns(cols1: seq<string>, cols2: seq<string>) returns (r: Result<Resolved, Error>)
    requires DistinctLabels(cols1) && DistinctLabels(cols2)
    ensures r == Resolve(cols1, cols2)
  {
    var norm1 := NormalizeColumns(cols1);
    var norm2 := NormalizeColumns(cols2);
    if OrderColumn1 !in norm1 {
      return Err(MissingOrderColumn1);
    }
    if OrderColumn2 !in norm2 {
      return Err(MissingOrderColumn2);
    }
    var customer := FindCustomerColumn(cols1);
    if customer.None? {
      return Err(MissingCustomerColumn);
    }
    var orig1 := OriginalNames(cols1);
    var orig2 := OriginalNames(cols2);
    var name1 := orig1[OrderColumn1];
    var name2 := orig2[OrderColumn2];
    // app.py:56-57 re-checks that the renamed columns exist; they always do.
    assert name1 in cols1 && name2 in cols2;
    IndexOfDistinct(cols1, LastIndex(norm1, OrderColumn1).value);
    IndexOfDistinct(cols2, LastIndex(norm2, OrderColumn2).value);
    IndexOfDistinct(cols1, FirstCustomer(norm1).value);
    r := Ok(Resolved(IndexOf(cols1, name1), IndexOf(cols2, name2), IndexOf(cols1, customer.value)));
  }

  /**
   * The failures come in a fixed order, each exactly when the checks before
   * it passed and its own column is missing (header names compared after
   * trimming and lower-casing); resolution succeeds exactly when all three
   * columns exist.
   */
  lemma ResolveFailureOrder(cols1: seq<string>, cols2: seq<string>)
    ensures Resolve(cols1, cols2) == Err(MissingOrderColumn1)
            <==> forall i :: 0 <= i < |cols1| ==> NormalizeName(cols1[i]) != OrderColumn1
    ensures Resolve(cols1, cols2) == Err(MissingOrderColumn2)
            <==> (exists i :: 0 <= i < |cols1| && NormalizeName(cols1[i]) == OrderColumn1)
                 && forall j :: 0 <= j < |cols2| ==> NormalizeName(cols2[j]) != OrderColumn2
    ensures Resolve(cols1, cols2) == Err(MissingCustomerColumn)
            <==> (exists i :: 0 <= i < |cols1| && NormalizeName(cols1[i]) == OrderColumn1)
                 && (exists j :: 0 <= j < |cols2| && NormalizeName(cols2[j]) == OrderColumn2)
                 && forall k :: 0 <= k < |cols1| ==> !IsCustomerName(NormalizeName(cols1[k]))
    ensures Resolve(cols1, cols2).Ok?
            <==> (exists i :: 0 <= i < |cols1| && NormalizeName(cols1[i]) == OrderColumn1)
                 && (exists j :: 0 <= j < |cols2| && NormalizeName(cols2[j]) == OrderColumn2)
                 && (exists k :: 0 <= k < |cols1| && IsCustomerName(NormalizeName(cols1[k])))
  {
    var norm1 := NormalizeColumns(cols1);
    var norm2 := NormalizeColumns(cols2);
    assert forall i :: 0 <= i < |cols1| ==> norm1[i] == NormalizeName(cols1[i]);
    assert forall j :: 0 <= j < |cols2| ==> norm2[j] == NormalizeName(cols2[j]);
    var c := FirstCustomer(norm1);
    if c.Some? {
      assert IsCustomerName(norm1[c.value]);
    }
  }

  /**
   * On success the identifier columns are the LAST headers with the required
   * normalised names, the customer column is the FIRST customer header, and
   * the customer column is not System 1's identifier column.
   */
  lemma ResolvedPositions(cols1: seq<string>, cols2: seq<string>)
    requires Resolve(cols1, cols2).Ok?
    ensures var rc := Resolve(cols1, cols2).value;
            && rc.id1 < |cols1| && NormalizeName(cols1[rc.id1]) == OrderColumn1
            && (forall j :: rc.id1 < j < |cols1| ==> NormalizeName(cols1[j]) != OrderColumn1)
            && rc.id2 < |cols2| && NormalizeName(cols2[rc.id2]) == OrderColumn2
            && (forall j :: rc.id2 < j < |cols2| ==> NormalizeName(cols2[j]) != OrderColumn2)
            && rc.customer < |cols1| && IsCustomerName(NormalizeName(cols1[rc.customer]))
            && (forall j :: 0 <= j < rc.customer ==> !IsCustomerName(NormalizeName(cols1[j])))
            && rc.customer != rc.id1
  {
    var norm1 := NormalizeColumns(cols1);
    var norm2 := NormalizeColumns(cols2);
    assert forall i :: 0 <= i < |cols1| ==> norm1[i] == NormalizeName(cols1[i]);
    assert forall j :: 0 <= j < |cols2| ==> norm2[j] == NormalizeName(cols2[j]);
    OrderColumnIsNotCustomer();
  }

  /** The name 'pedido print one' is not a customer name: it has no 'c' at all. */
  lemma OrderColumnIsNotCustomer()
    ensures !IsCustomerName(OrderColumn1)
  {
    var n := OrderColumn1;
    assert 'c' !in n;
    forall i | 0 <= i <= |n| ensures !(CustomerMarker <= n[i..]) {
      if i < |n| {
        assert n[i..][0] == n[i] && n[i] in n;
      }
    }
  }

  /** A header with no surrounding whitespace normalises to its lower-case form. */
  lemma NormalizeUnpadded(name: string)
    requires name != [] && !IsSpace(name[0]) && !IsSpace(name[|name| - 1])
    ensures NormalizeName(name) == Lower(name)
  {
    assert name[..0] == [] && name[|name|..] == [] && name[0..|name|] == name;
    StripUnique(name, 0, |name|);
  }

  /** The two identifier-like System-1 headers of the example below, normalised. */
  lemma ExampleOrderHeaders()
    ensures NormalizeName("Pedido") == "pedido"
    ensures NormalizeName("Pedido Print One") == OrderColumn1
  {
    NormalizeUnpadded("Pedido");
    NormalizeUnpadded("Pedido Print One");
  }

  /** The two customer-like System-1 headers of the example below, normalised. */
  lemma ExampleCustomerHeaders()
    ensures NormalizeName("Cliente - Nome") == CustomerExclusion
    ensures NormalizeName("Cliente") == CustomerMarker
  {
    NormalizeUnpadded("Cliente - Nome");
    NormalizeUnpadded("Cliente");
  }

  /** Normalising the System-1 headers of the example below. */
  lemma ExampleNames1()
    ensures NormalizeColumns(["Pedido", "Pedido Print One", "Cliente - Nome", "Cliente"])
            == ["pedido", OrderColumn1, CustomerExclusion, CustomerMarker]
  {
    ExampleOrderHeaders();
    ExampleCustomerHeaders();
    var n := NormalizeColumns(["Pedido", "Pedido Print One", "Cliente - Nome", "Cliente"]);
    assert n[0] == "pedido" && n[1] == OrderColumn1 && n[2] == CustomerExclusion && n[3] == CustomerMarker;
  }

  /** Normalising the System-2 header of the example below. */
  lemma ExampleNames2()
    ensures NormalizeColumns(["Número do Pedido"]) == [OrderColumn2]
  {
    NormalizeUnpadded("Número do Pedido");
    assert NormalizeName("Número do Pedido") == OrderColumn2;
    assert NormalizeColumns(["Número do Pedido"])[0] == NormalizeName("Número do Pedido");
  }

  /**
   * Headers Pedido, Pedido Print One, Cliente - Nome, Cliente: the identifier
   * is 'Pedido Print One' and the customer column is 'Cliente', because
   * 'Cliente - Nome' carries the excluded qualifier. Without any customer
   * header, resolution fails with the customer error.
   */
  lemma ResolveExample()
    ensures Resolve(["Pedido", "Pedido Print One", "Cliente - Nome", "Cliente"], ["Número do Pedido"])
            == Ok(Resolved(1, 0, 3))
    ensures Resolve(["Pedido", "Pedido Print One", "Cliente - Nome"], ["Número do Pedido"])
            == Err(MissingCustomerColumn)
  {
    ExampleNames1();
    ExampleNames2();
    OrderColumnIsNotCustomer();
    var norm := NormalizeColumns(["Pedido", "Pedido Print One", "Cliente - Nome", "Cliente"]);
    assert Contains(CustomerExclusion, CustomerExclusion) by {
      assert CustomerExclusion <= CustomerExclusion[0..];
    }
    assert IsCustomerName(CustomerMarker) by {
      assert CustomerMarker <= CustomerMarker[0..];
    }
    assert !IsCustomerName("pedido");
    assert FirstCustomer(norm) == Some(3);
    var norm' := NormalizeColumns(["Pedido", "Pedido Print One", "Cliente - Nome"]);
    assert norm' == norm[..3];
    assert FirstCustomer(norm') == None;
  }
}
