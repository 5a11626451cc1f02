/**
 * The submit handler of validation.js (`collectFormData` and the body of the
 * listener installed by `attachFormHandler`): the form's entries are
 * trimmed into a flat mapping, every consistency check runs and adds its
 * message to an ordered error list, and only a submission with no error is
 * appended, as a record, to the list kept under the storage key
 * `cadastros_ong`.
 */
module Submission {
  import opened JsStrings
  import opened Masks
  import opened Validators

  /* ---------------- collectFormData ---------------- */

  /** One `FormData` entry: a control's name and its (string) value. */
  type Entry = (string, string)

  /** The mapping `collectFormData` builds: each name bound to the trimmed value
      of its last entry. */
  function Collected(entries: seq<Entry>): (m: map<string, string>)
    ensures m.Keys == set e | e in entries :: e.0
  {
    if entries == [] then map[]
    else
      var init := entries[..|entries| - 1];
      var last := entries[|entries| - 1];
      assert entries == init + [last];
      Collected(init)[last.0 := Trim(last.1)]
  }

  /** A later entry with the same name overrides an earlier one. */
  lemma {:induction false} CollectedLastWins(entries: seq<Entry>, i: nat)
    requires i < |entries|
    requires forall j :: i < j < |entries| ==> entries[j].0 != entries[i].0
    ensures Collected(entries)[entries[i].0] == Trim(entries[i].1)
  {
    if i < |entries| - 1 {
      var init := entries[..|entries| - 1];
      CollectedLastWins(init, i);
    }
  }

  /** `collectFormData`: the `for ... of fd.entries()` loop. */
  method CollectFormData(entries: seq<Entry>) returns (obj: map<string, string>)
    ensures obj == Collected(entries)
  {
    obj := map[];
    var i := 0;
    while i < |entries|
      invariant 0 <= i <= |entries|
      invariant obj == Collected(entries[..i])
    {
      var (k, v) := entries[i];
      assert entries[..i + 1][..i] == entries[..i];
      obj := obj[k := Trim(v)];
      i := i + 1;
    }
    assert entries[..i] == entries;
  }

  /* ---------------- Consistency checks ---------------- */

  /** The `obrigatorios` list, in order. */
  const Required: seq<string> :=
    ["nome", "email", "cpf", "telefone", "nascimento", "endereco", "cep", "cidade", "estado", "tipo"]

  const MinAge: int := 16

  const CpfMessage: string := "CPF inválido."
  const PhoneMessage: string := "Telefone inválido."
  const CepMessage: string := "CEP inválido."
  const AgeMessage: string := "É necessário ter pelo menos 16 anos para se cadastrar."

  /** `data[k]` is truthy: present and not the empty string. */
  predicate Filled(data: map<string, string>, k: string)
  {
    k in data && data[k] != ""
  }

  /** The message pushed for a missing required field. */
  function RequiredMessage(k: string): string
  {
    "O campo \"" + k + "\" é obrigatório."
  }

  /** Distinct fields get distinct messages, and none of them is a format message. */
  lemma RequiredMessageInjective(a: string, b: string)
    ensures RequiredMessage(a) == RequiredMessage(b) ==> a == b
    ensures RequiredMessage(a) !in [CpfMessage, PhoneMessage, CepMessage, AgeMessage]
  {
    var ma, mb := RequiredMessage(a), RequiredMessage(b);
    assert ma[0] == 'O';
    if ma == mb {
      assert |a| == |b|;
      assert a == ma[9..9 + |a|];
      assert b == mb[9..9 + |b|];
    }
  }

  /** One message per field of `keys` that is not filled, in list order. */
  function MissingFieldErrors(data: map<string, string>, keys: seq<string>): (r: seq<string>)
    ensures |r| <= |keys|
  {
    if keys == [] then []
    else
      var init, last := keys[..|keys| - 1], keys[|keys| - 1];
      MissingFieldErrors(data, init) + (if Filled(data, last) then [] else [RequiredMessage(last)])
  }

  /** Every listed message names an empty field of `keys`, and every empty field is listed. */
  lemma {:induction false} MissingFieldErrorsReports(data: map<string, string>, keys: seq<string>)
    ensures var r := MissingFieldErrors(data, keys);
      && (forall m :: m in r ==> exists k :: k in keys && !Filled(data, k) && m == RequiredMessage(k))
      && (forall k :: k in keys && !Filled(data, k) ==> RequiredMessage(k) in r)
  {
    if keys != [] {
      var init, last := keys[..|keys| - 1], keys[|keys| - 1];
      assert keys == init + [last];
      assert forall k :: k in init ==> k in keys;
      MissingFieldErrorsReports(data, init);
    }
  }

  /** `if (data.cpf && !validateCPF(data.cpf))` */
  function CpfError(data: map<string, string>): seq<string>
  {
    if Filled(data, "cpf") && !IsValidCPF(data["cpf"]) then [CpfMessage] else []
  }

  /** `if (data.telefone && onlyDigits(data.telefone).length < 10)` */
  function PhoneError(data: map<string, string>): seq<string>
  {
    if Filled(data, "telefone") && |OnlyDigits(data["telefone"])| < 10 then [PhoneMessage] else []
  }

  /** `if (data.cep && onlyDigits(data.cep).length !== 8)` */
  function CepError(data: map<string, string>): seq<string>
  {
    if Filled(data, "cep") && |OnlyDigits(data["cep"])| != 8 then [CepMessage] else []
  }

  /** `if (data.nascimento && !validateAge(data.nascimento, 16))` */
  function AgeError(data: map<string, string>, today: Date, parse: string -> Option<Date>): seq<string>
  {
    if Filled(data, "nascimento") && !ValidateAge(data["nascimento"], parse, today, MinAge)
    then [AgeMessage] else []
  }

  /** The four format checks, each run only when its field is filled. */
  function FormatErrors(data: map<string, string>, today: Date, parse: string -> Option<Date>): seq<string>
  {
    CpfError(data) + PhoneError(data) + CepError(data) + AgeError(data, today, parse)
  }

  /** `r` is `c` with some elements left out, the rest kept in order. */
  predicate Subsequence(r: seq<string>, c: seq<string>)
  {
    if r == [] then true
    else if c == [] then false
    else (r[0] == c[0] && Subsequence(r[1..], c[1..])) || Subsequence(r, c[1..])
  }

  lemma {:induction false} SubsequenceOfLonger(r: seq<string>, b: seq<string>, d: seq<string>)
    requires Subsequence(r, d)
    ensures Subsequence(r, b + d)
  {
    if b == [] {
      assert b + d == d;
    } else if r != [] {
      assert (b + d)[1..] == b[1..] + d;
      SubsequenceOfLonger(r, b[1..], d);
      assert Subsequence(r, (b + d)[1..]);
    }
  }

  lemma {:induction false} SubsequenceConcat(a: seq<string>, b: seq<string>, c: seq<string>, d: seq<string>)
    requires Subsequence(a, b) && Subsequence(c, d)
    ensures Subsequence(a + c, b + d)
    decreases |b|
  {
    if a == [] {
      assert a + c == c;
      SubsequenceOfLonger(c, b, d);
    } else {
      assert (a + c)[0] == a[0] && (a + c)[1..] == a[1..] + c;
      assert (b + d)[0] == b[0] && (b + d)[1..] == b[1..] + d;
      if a[0] == b[0] && Subsequence(a[1..], b[1..]) {
        SubsequenceConcat(a[1..], b[1..], c, d);
      } else {
        SubsequenceConcat(a, b[1..], c, d);
      }
    }
  }

  /** The message of every field of `keys`, in order. */
  function AllRequiredMessages(keys: seq<string>): (r: seq<string>)
    ensures |r| == |keys|
  {
    if keys == [] then [] else AllRequiredMessages(keys[..|keys| - 1]) + [RequiredMessage(keys[|keys| - 1])]
  }

  lemma {:induction false} MissingFieldErrorsInOrder(data: map<string, string>, keys: seq<string>)
    ensures Subsequence(MissingFieldErrors(data, keys), AllRequiredMessages(keys))
  {
    if keys != [] {
      var init, last := keys[..|keys| - 1], keys[|keys| - 1];
      MissingFieldErrorsInOrder(data, init);
      var opt: seq<string> := if Filled(data, last) then [] else [RequiredMessage(last)];
      assert Subsequence(opt, [RequiredMessage(last)]);
      SubsequenceConcat(MissingFieldErrors(data, init), AllRequiredMessages(init), opt, [RequiredMessage(last)]);
    }
  }

  lemma FormatErrorsInOrder(data: map<string, string>, today: Date, parse: string -> Option<Date>)
    ensures Subsequence(FormatErrors(data, today, parse), [CpfMessage, PhoneMessage, CepMessage, AgeMessage])
  {
    var a, b, c, d := CpfError(data), PhoneError(data), CepError(data), AgeError(data, today, parse);
    assert Subsequence(a, [CpfMessage]) && Subsequence(b, [PhoneMessage]);
    assert Subsequence(c, [CepMessage]) && Subsequence(d, [AgeMessage]);
    SubsequenceConcat(a, [CpfMessage], b, [PhoneMessage]);
    SubsequenceConcat(a + b, [CpfMessage, PhoneMessage], c, [CepMessage]);
    assert [CpfMessage, PhoneMessage] + [CepMessage] == [CpfMessage, PhoneMessage, CepMessage];
    SubsequenceConcat(a + b + c, [CpfMessage, PhoneMessage, CepMessage], d, [AgeMessage]);
    assert [CpfMessage, PhoneMessage, CepMessage] + [AgeMessage] == [CpfMessage, PhoneMessage, CepMessage, AgeMessage];
  }

  /** Every message the handler can produce, in the order it checks them. */
  function Catalog(): seq<string>
  {
    AllRequiredMessages(Required) + [CpfMessage, PhoneMessage, CepMessage, AgeMessage]
  }

  /** The error list of one submission: the missing required fields, then the
      failed format checks. */
  function Validate(data: map<string, string>, today: Date, parse: string -> Option<Date>): seq<string>
  {
    MissingFieldErrors(data, Required) + FormatErrors(data, today, parse)
  }

  /** The four format messages differ from each other. */
  lemma FormatMessagesDistinct()
    ensures CpfMessage != PhoneMessage && CpfMessage != CepMessage && CpfMessage != AgeMessage
    ensures PhoneMessage != CepMessage && PhoneMessage != AgeMessage && CepMessage != AgeMessage
  {
    assert |CpfMessage| == 13 && |PhoneMessage| == 18 && |CepMessage| == 13 && |AgeMessage| > 18;
    assert CpfMessage[1] == 'P' && CepMessage[1] == 'E';
  }

  /** A required-field message is listed exactly for the required fields left empty. */
  lemma ValidateReportsMissing(data: map<string, string>, today: Date, parse: string -> Option<Date>, k: string)
    requires k in Required
    ensures RequiredMessage(k) in Validate(data, today, parse) <==> !Filled(data, k)
  {
    var missing := MissingFieldErrors(data, Required);
    MissingFieldErrorsReports(data, Required);
    RequiredMessageInjective(k, k);
    if RequiredMessage(k) in missing {
      assert exists k' :: k' in Required && !Filled(data, k') && RequiredMessage(k) == RequiredMessage(k');
      var k' :| k' in Required && !Filled(data, k') && RequiredMessage(k) == RequiredMessage(k');
      RequiredMessageInjective(k, k');
    }
  }

  /** No required-field message is one of the format messages. */
  lemma MissingHasNoFormatMessage(data: map<string, string>)
    ensures forall m :: m in MissingFieldErrors(data, Required) ==>
      m != CpfMessage && m != PhoneMessage && m != CepMessage && m != AgeMessage
  {
    var missing := MissingFieldErrors(data, Required);
    MissingFieldErrorsReports(data, Required);
    forall m | m in missing
      ensures m != CpfMessage && m != PhoneMessage && m != CepMessage && m != AgeMessage
    {
      var k :| k in Required && m == RequiredMessage(k);
      RequiredMessageInjective(k, k);
    }
  }

  /** Each format message is in the format part exactly when its own check added it. */
  lemma FormatErrorsMembership(data: map<string, string>, today: Date, parse: string -> Option<Date>)
    ensures var f := FormatErrors(data, today, parse);
      && (CpfMessage in f <==> CpfError(data) != [])
      && (PhoneMessage in f <==> PhoneError(data) != [])
      && (CepMessage in f <==> CepError(data) != [])
      && (AgeMessage in f <==> AgeError(data, today, parse) != [])
  {
    FormatMessagesDistinct();
    var a, b, c, d := CpfError(data), PhoneError(data), CepError(data), AgeError(data, today, parse);
    assert a == [] || a == [CpfMessage];
    assert b == [] || b == [PhoneMessage];
    assert c == [] || c == [CepMessage];
    assert d == [] || d == [AgeMessage];
    assert FormatErrors(data, today, parse) == a + b + c + d;
  }

  /** Each format message is listed exactly when its field is filled and fails the check. */
  lemma ValidateReportsFormat(data: map<string, string>, today: Date, parse: string -> Option<Date>)
    ensures var r := Validate(data, today, parse);
      && (CpfMessage in r <==> Filled(data, "cpf") && !IsValidCPF(data["cpf"]))
      && (PhoneMessage in r <==> Filled(data, "telefone") && |OnlyDigits(data["telefone"])| < 10)
      && (CepMessage in r <==> Filled(data, "cep") && |OnlyDigits(data["cep"])| != 8)
      && (AgeMessage in r <==>
            Filled(data, "nascimento") && !ValidateAge(data["nascimento"], parse, today, MinAge))
  {
    MissingHasNoFormatMessage(data);
    FormatErrorsMembership(data, today, parse);
    var missing, f := MissingFieldErrors(data, Required), FormatErrors(data, today, parse);
    assert Validate(data, today, parse) == missing + f;
    assert forall m :: m in missing + f <==> m in missing || m in f;
  }

  /** The list keeps the handler's order: required fields in list order, then CPF,
      phone, CEP and age. */
  lemma ValidateInOrder(data: map<string, string>, today: Date, parse: string -> Option<Date>)
    ensures Subsequence(Validate(data, today, parse), Catalog())
  {
    MissingFieldErrorsInOrder(data, Required);
    FormatErrorsInOrder(data, today, parse);
    SubsequenceConcat(MissingFieldErrors(data, Required), AllRequiredMessages(Required),
                      FormatErrors(data, today, parse), [CpfMessage, PhoneMessage, CepMessage, AgeMessage]);
  }

  /** The list is empty exactly when every required field is filled and all four checks pass. */
  lemma ValidateAcceptsIff(data: map<string, string>, today: Date, parse: string -> Option<Date>)
    ensures Validate(data, today, parse) == [] <==>
      && (forall k :: k in Required ==> Filled(data, k))
      && Filled(data, "cpf") && IsValidCPF(data["cpf"])
      && Filled(data, "telefone") && |OnlyDigits(data["telefone"])| >= 10
      && Filled(data, "cep") && |OnlyDigits(data["cep"])| == 8
      && Filled(data, "nascimento") && ValidateAge(data["nascimento"], parse, today, MinAge)
  {
    var missing := MissingFieldErrors(data, Required);
    ValidateUnfold(data, today, parse);
    MissingFieldErrorsReports(data, Required);
    assert Validate(data, today, parse) == [] <==>
      missing == [] && CpfError(data) == [] && PhoneError(data) == [] && CepError(data) == []
      && AgeError(data, today, parse) == [];
    assert missing == [] <==> forall k :: k in Required ==> Filled(data, k) by {
      if missing != [] {
        assert missing[0] in missing;
      }
    }
    assert "cpf" in Required && "telefone" in Required && "cep" in Required && "nascimento" in Required;
  }

  /** The checks as the handler runs them: the `forEach` over the required fields,
      then the four guarded format checks, each pushing onto `erros`. */
  method CollectErrors(data: map<string, string>, today: Date, parse: string -> Option<Date>)
    returns (erros: seq<string>)
    ensures erros == Validate(data, today, parse)
  {
    erros := [];
    var i := 0;
    while i < |Required|
      invariant 0 <= i <= |Required|
      invariant erros == MissingFieldErrors(data, Required[..i])
    {
      var k := Required[i];
      assert Required[..i + 1][..i] == Required[..i];
      if !Filled(data, k) {
        erros := erros + [RequiredMessage(k)];
      }
      i := i + 1;
    }
    assert Required[..i] == Required;
    ghost var missing := erros;
    if Filled(data, "cpf") {
      var ok := ValidateCPF(data["cpf"]);
      if !ok {
        erros := erros + [CpfMessage];
      }
    }
    assert erros == missing + CpfError(data);
    if Filled(data, "telefone") && |OnlyDigits(data["telefone"])| < 10 {
      erros := erros + [PhoneMessage];
    }
    assert erros == missing + CpfError(data) + PhoneError(data);
    if Filled(data, "cep") && |OnlyDigits(data["cep"])| != 8 {
      erros := erros + [CepMessage];
    }
    assert erros == missing + CpfError(data) + PhoneError(data) + CepError(data);
    if Filled(data, "nascimento") && !ValidateAge(data["nascimento"], parse, today, MinAge) {
      erros := erros + [AgeMessage];
    }
    assert erros == missing + CpfError(data) + PhoneError(data) + CepError(data) + AgeError(data, today, parse);
    ValidateUnfold(data, today, parse);
  }

  /** `Validate` as four consecutive appends to the required-field list. */
  lemma ValidateUnfold(data: map<string, string>, today: Date, parse: string -> Option<Date>)
    ensures Validate(data, today, parse) ==
      MissingFieldErrors(data, Required) + CpfError(data) + PhoneError(data) + CepError(data) + AgeError(data, today, parse)
  {
  }

  /** A form without a `cpf` value is refused with the required-field notice for
      `cpf` in the joined message, and without the invalid-CPF notice. */
  lemma MissingCpfReported(data: map<string, string>, today: Date, parse: string -> Option<Date>)
    requires !Filled(data, "cpf")
    ensures var r := Validate(data, today, parse);
      && r != [] && CpfMessage !in r
      && IsInfix(RequiredMessage("cpf"), Join(r, " "))
  {
    var r := Validate(data, today, parse);
    ValidateReportsMissing(data, today, parse, "cpf");
    ValidateReportsFormat(data, today, parse);
    JoinContains(r, " ", RequiredMessage("cpf"));
  }

  /* ---------------- The stored record ---------------- */

  /** The JSON values a record holds. */
  datatype Value = Num(n: int) | Str(s: string)

  type Record = map<string, Value>

  /** `{ id: now, ...data, criadoEm: createdAt }`: later keys win, so a form field
      named `id` replaces the generated id, while `criadoEm` always wins. */
  function MakeRecord(now: int, data: map<string, string>, createdAt: string): Record
  {
    map["id" := Num(now)] + (map k | k in data :: Str(data[k])) + map["criadoEm" := Str(createdAt)]
  }

  /** The record holds the form's fields, the id and the timestamp, and nothing else. */
  lemma MakeRecordFields(now: int, data: map<string, string>, createdAt: string)
    ensures var r := MakeRecord(now, data, createdAt);
      && r.Keys == data.Keys + {"id", "criadoEm"}
      && r["criadoEm"] == Str(createdAt)
      && r["id"] == (if "id" in data then Str(data["id"]) else Num(now))
      && forall k :: k in data && k != "criadoEm" ==> r[k] == Str(data[k])
  {
  }

  /** What `localStorage.getItem('cadastros_ong')` holds, as the handler reads it. */
  datatype StoredList =
    | Absent                          // no item: `getItem` returns null
    | Blank                           // the empty string
    | Records(list: seq<Record>)      // text that `JSON.parse` reads as an array
    | Unreadable                      // any other text: parsing or `push` throws

  /** The list the handler starts from, when it gets that far. */
  function Existing(s: StoredList): seq<Record>
    requires !s.Unreadable?
  {
    if s.Records? then s.list else []
  }

  datatype Kind = Error | Success

  /** What the page shows: `showToast(message, { type })` or `showModal(title, body)`. */
  datatype Notice = Toast(message: string, kind: Kind) | Modal(title: string, body: string)

  const SuccessMessage: string := "Cadastro enviado com sucesso!"
  const ModalTitle: string := "Cadastro recebido"
  const ModalBody: string := "Obrigado por se cadastrar! Sua participação é muito importante."

  datatype Outcome =
    | Rejected(errors: seq<string>)   // the error toast was shown, nothing stored
    | Saved(record: Record)           // the record was appended and the form reset
    | Threw                           // the stored text could not be read: the handler threw

  /** One form together with the storage slot it writes and the notices it shows. */
  class Registration {
    var store: StoredList
    /** The entries `new FormData(form)` would produce now. */
    var form: seq<Entry>
    /** The entries after `form.reset()`. */
    const defaults: seq<Entry>
    var notices: seq<Notice>

    constructor (store: StoredList, form: seq<Entry>, defaults: seq<Entry>)
      ensures this.store == store && this.form == form && this.defaults == defaults
      ensures notices == []
    {
      this.store := store;
      this.form := form;
      this.defaults := defaults;
      notices := [];
    }

    /** The user edits the form. */
    method Fill(entries: seq<Entry>)
      modifies this
      ensures form == entries
      ensures store == old(store) && notices == old(notices)
    {
      form := entries;
    }

    /** The submit listener, with the clock read as `today`, `now` (`Date.now()`)
        and `createdAt` (`new Date().toISOString()`), and the date parser as `parse`. */
    method Submit(today: Date, parse: string -> Option<Date>, now: int, createdAt: string)
      returns (outcome: Outcome)
      modifies this
      ensures var data := Collected(old(form));
        var errs := Validate(data, today, parse);
        && (errs != [] ==>
              && outcome == Rejected(errs)
              && store == old(store) && form == old(form)
              && notices == old(notices) + [Toast(Join(errs, " "), Error)])
        && (errs == [] && old(store).Unreadable? ==>
              && outcome == Threw
              && store == old(store) && form == old(form) && notices == old(notices))
        && (errs == [] && !old(store).Unreadable? ==>
              && outcome == Saved(MakeRecord(now, data, createdAt))
              && store == Records(Existing(old(store)) + [MakeRecord(now, data, createdAt)])
              && form == defaults
              && notices == old(notices) + [Toast(SuccessMessage, Success), Modal(ModalTitle, ModalBody)])
    {
      var data := CollectFormData(form);
      var erros := CollectErrors(data, today, parse);
      if |erros| > 0 {
        notices := notices + [Toast(Join(erros, " "), Error)];
        return Rejected(erros);
      }
      var lista: seq<Record>;
      match store {
        case Absent => lista := [];
        case Blank => lista := [];
        case Records(list) => lista := list;
        case Unreadable => return Threw;
      }
      var registro := MakeRecord(now, data, createdAt);
      lista := lista + [registro];
      store := Records(lista);
      notices := notices + [Toast(SuccessMessage, Success), Modal(ModalTitle, ModalBody)];
      form := defaults;
      outcome := Saved(registro);
    }
  }

  /** Records made at different instants from forms without an `id` field have different ids. */
  lemma RecordIdsDiffer(now1: int, d1: map<string, string>, at1: string,
                        now2: int, d2: map<string, string>, at2: string)
    requires now1 != now2 && "id" !in d1 && "id" !in d2
    ensures MakeRecord(now1, d1, at1)["id"] != MakeRecord(now2, d2, at2)["id"]
  {
    MakeRecordFields(now1, d1, at1);
    MakeRecordFields(now2, d2, at2);
  }

  /** Filling in an acceptable form and submitting it appends its record. */
  method SubmitAccepted(reg: Registration, entries: seq<Entry>, today: Date,
                        parse: string -> Option<Date>, now: int, createdAt: string)
    requires !reg.store.Unreadable?
    requires Validate(Collected(entries), today, parse) == []
    modifies reg
    ensures reg.store == Records(Existing(old(reg.store)) + [MakeRecord(now, Collected(entries), createdAt)])
  {
    reg.Fill(entries);
    var outcome := reg.Submit(today, parse, now, createdAt);
  }

  /** Two accepted submissions on an empty store leave exactly their two records, in order. */
  method SubmitTwice(reg: Registration, first: seq<Entry>, second: seq<Entry>, today: Date,
                     parse: string -> Option<Date>, now1: int, now2: int, at1: string, at2: string)
    requires reg.store == Absent
    requires Validate(Collected(first), today, parse) == []
    requires Validate(Collected(second), today, parse) == []
    modifies reg
    ensures reg.store.Records? && |reg.store.list| == 2
    ensures reg.store.list[0] == MakeRecord(now1, Collected(first), at1)
    ensures reg.store.list[1] == MakeRecord(now2, Collected(second), at2)
  {
    SubmitAccepted(reg, first, today, parse, now1, at1);
    SubmitAccepted(reg, second, today, parse, now2, at2);
  }
}
