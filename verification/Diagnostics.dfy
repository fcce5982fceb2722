/** `Diagnostic::to_json` and `diagnostics_json` (src/diagnostic.rs), and reading their text back. */
module Diagnostics {
  import opened Utf8
  import opened JsonGrammar
  import opened JsonRoundTrip

  datatype Stage = Lex | Parse | Type | Compile | Runtime {
    function Label(): string {
      match this
      case Lex => "lex"
      case Parse => "parse"
      case Type => "type"
      case Compile => "compile"
      case Runtime => "runtime"
    }
  }

  /** The fields that are serialised. */
  datatype Diagnostic = Diagnostic(stage: Stage, message: string, line: nat, col: nat, code: Option<string>, hint: Option<string>)

  /** A quoted, escaped string, or `null`. */
  function OrNull(s: Option<string>): string {
    match s
    case None => "null"
    case Some(t) => "\"" + Escape(t) + "\""
  }

  /** One `"key":value` of the format string. */
  function Entry(key: string, value: string): string {
    "\"" + key + "\":" + value
  }

  function ToText(d: Diagnostic, severity: string): string {
    "{" + (Entry("stage", "\"" + d.stage.Label() + "\"") + "," +
    (Entry("severity", "\"" + severity + "\"") + "," +
    (Entry("message", "\"" + Escape(d.message) + "\"") + "," +
    (Entry("line", Decimal(d.line)) + "," +
    (Entry("col", Decimal(d.col)) + "," +
    (Entry("code", OrNull(d.code)) + "," +
    Entry("hint", OrNull(d.hint)))))))) + "}"
  }

  function Texts(ds: seq<Diagnostic>, severity: string): seq<string> {
    seq(|ds|, i requires 0 <= i < |ds| => ToText(ds[i], severity))
  }

  /** `objs.join(",")`. */
  function Join(xs: seq<string>): string {
    if xs == [] then [] else if |xs| == 1 then xs[0] else xs[0] + "," + Join(xs[1..])
  }

  function DiagnosticsJson(errors: seq<Diagnostic>, warnings: seq<Diagnostic>): string {
    "[" + Join(Texts(errors, "error") + Texts(warnings, "warning")) + "]" + "\n"
  }

  // ----- As documents -----

  function DocOrNull(s: Option<string>): Doc {
    match s
    case None => DNull
    case Some(t) => DStr(t)
  }

  function ToDoc(d: Diagnostic, severity: string): Doc {
    DObj([DField("stage", DStr(d.stage.Label())), DField("severity", DStr(severity)), DField("message", DStr(d.message)),
          DField("line", DNum(d.line)), DField("col", DNum(d.col)), DField("code", DocOrNull(d.code)),
          DField("hint", DocOrNull(d.hint))])
  }

  predicate Plain(s: string) {
    forall i :: 0 <= i < |s| ==> s[i] as int >= 0x20 && s[i] != '"' && s[i] != '\\'
  }

  lemma {:induction false} PlainEscapes(s: string)
    requires Plain(s)
    ensures Escape(s) == s
  {
    if s != [] {
      PlainEscapes(s[1..]);
      assert s == [s[0]] + s[1..];
    }
  }

  lemma EntryIsField(key: string, d: Doc)
    requires Plain(key)
    ensures Entry(key, Print(d)) == PrintField(DField(key, d))
  {
    hide Print;
    PlainEscapes(key);
    assert "\"" + key + "\":" + Print(d) == "\"" + key + "\"" + ":" + Print(d);
  }

  lemma OrNullPrints(s: Option<string>)
    ensures OrNull(s) == Print(DocOrNull(s))
  {
  }

  lemma PrintFieldsCons(f: DField, rest: seq<DField>)
    requires rest != []
    ensures PrintFields([f] + rest) == PrintField(f) + "," + PrintFields(rest)
  {
    assert ([f] + rest)[1..] == rest;
  }

  lemma SevenFields(a: DField, b: DField, c: DField, d: DField, e: DField, f: DField, g: DField)
    ensures PrintFields([a, b, c, d, e, f, g])
            == PrintField(a) + "," + (PrintField(b) + "," + (PrintField(c) + "," + (PrintField(d) + "," +
            (PrintField(e) + "," + (PrintField(f) + "," + PrintField(g))))))
  {
    hide PrintFields, PrintField;
    OneField(g);
    PrintFieldsCons(f, [g]);
    PrintFieldsCons(e, [f] + [g]);
    PrintFieldsCons(d, [e] + ([f] + [g]));
    PrintFieldsCons(c, [d] + ([e] + ([f] + [g])));
    PrintFieldsCons(b, [c] + ([d] + ([e] + ([f] + [g]))));
    PrintFieldsCons(a, [b] + ([c] + ([d] + ([e] + ([f] + [g])))));
    assert [a, b, c, d, e, f, g] == [a] + ([b] + ([c] + ([d] + ([e] + ([f] + [g])))));
  }

  /** The hand-written format is the printed document. */
  lemma TextIsPrinted(d: Diagnostic, severity: string)
    requires Plain(severity)
    ensures ToText(d, severity) == Print(ToDoc(d, severity))
  {
    hide PrintFields, PrintField, Entry, Escape, Decimal;
    PlainEscapes(d.stage.Label());
    PlainEscapes(severity);
    OrNullPrints(d.code);
    OrNullPrints(d.hint);
    EntryIsField("stage", DStr(d.stage.Label()));
    EntryIsField("severity", DStr(severity));
    EntryIsField("message", DStr(d.message));
    EntryIsField("line", DNum(d.line));
    EntryIsField("col", DNum(d.col));
    EntryIsField("code", DocOrNull(d.code));
    EntryIsField("hint", DocOrNull(d.hint));
    var fs := ToDoc(d, severity).fields;
    SevenFields(fs[0], fs[1], fs[2], fs[3], fs[4], fs[5], fs[6]);
  }

  lemma OneField(f: DField)
    ensures PrintFields([f]) == PrintField(f)
  {
  }

  function Docs(ds: seq<Diagnostic>, severity: string): seq<Doc> {
    seq(|ds|, i requires 0 <= i < |ds| => ToDoc(ds[i], severity))
  }

  lemma {:induction false} JoinIsPrintItems(xs: seq<string>, docs: seq<Doc>)
    requires |xs| == |docs| && forall i :: 0 <= i < |xs| ==> xs[i] == Print(docs[i])
    ensures Join(xs) == PrintItems(docs)
    decreases |xs|
  {
    hide Print;
    if xs != [] {
      assert xs[0] == Print(docs[0]);
      JoinIsPrintItems(xs[1..], docs[1..]);
    }
  }

  // ----- What the text parses back to -----

  function JsonOrNull(s: Option<string>): Json {
    match s
    case None => Null
    case Some(t) => Str(t)
  }

  /** The object a consumer reads for one diagnostic. */
  function AsObject(d: Diagnostic, severity: string): Json {
    Obj([Member("stage", Str(d.stage.Label())), Member("severity", Str(severity)), Member("message", Str(d.message)),
         Member("line", Num(d.line as real)), Member("col", Num(d.col as real)), Member("code", JsonOrNull(d.code)),
         Member("hint", JsonOrNull(d.hint))])
  }

  function AsObjects(ds: seq<Diagnostic>, severity: string): seq<Json> {
    seq(|ds|, i requires 0 <= i < |ds| => AsObject(ds[i], severity))
  }

  lemma ToMembersCons(f: DField, rest: seq<DField>)
    ensures ToMembers([f] + rest) == [ToMember(f)] + ToMembers(rest)
  {
    assert ([f] + rest)[1..] == rest;
  }

  lemma DocIsObject(d: Diagnostic, severity: string)
    ensures ToJson(ToDoc(d, severity)) == AsObject(d, severity)
  {
    hide ToMembers;
    var f8: seq<DField> := [];
    var f7 := [DField("hint", DocOrNull(d.hint))] + f8;
    ToMembersCons(f7[0], f8);
    NoMembers();
    var f6 := [DField("code", DocOrNull(d.code))] + f7;
    ToMembersCons(f6[0], f7);
    var f5 := [DField("col", DNum(d.col))] + f6;
    ToMembersCons(f5[0], f6);
    var f4 := [DField("line", DNum(d.line))] + f5;
    ToMembersCons(f4[0], f5);
    var f3 := [DField("message", DStr(d.message))] + f4;
    ToMembersCons(f3[0], f4);
    var f2 := [DField("severity", DStr(severity))] + f3;
    ToMembersCons(f2[0], f3);
    var f1 := [DField("stage", DStr(d.stage.Label()))] + f2;
    ToMembersCons(f1[0], f2);
    assert ToDoc(d, severity).fields == f1;
  }

  lemma NoMembers()
    ensures ToMembers([]) == []
  {
  }

  lemma {:induction false} FlatMembers(members: seq<Member>)
    requires forall i :: 0 <= i < |members| ==> Nest(members[i].val) == 0
    ensures NestMembers(members) == 0
    decreases |members|
  {
    if members != [] {
      FlatMembers(members[1..]);
    }
  }

  lemma {:induction false} FlatItems(items: seq<Json>)
    requires forall i :: 0 <= i < |items| ==> Nest(items[i]) <= 1
    ensures NestItems(items) <= 1
    decreases |items|
  {
    if items != [] {
      FlatItems(items[1..]);
    }
  }

  lemma {:induction false} ToItemsAt(docs: seq<Doc>, items: seq<Json>)
    requires |docs| == |items| && forall i :: 0 <= i < |docs| ==> ToJson(docs[i]) == items[i]
    ensures ToItems(docs) == items
    decreases |docs|
  {
    hide ToJson;
    if docs != [] {
      assert ToJson(docs[0]) == items[0];
      ToItemsAt(docs[1..], items[1..]);
      assert items == [items[0]] + items[1..];
    }
  }

  /** Parsing the printed diagnostics returns an array with the errors and then the warnings, each object
      carrying the original message, code, hint and position, whatever text they hold. */
  lemma DiagnosticsRoundTrip(errors: seq<Diagnostic>, warnings: seq<Diagnostic>, checks: bool)
    ensures Document(Encode(DiagnosticsJson(errors, warnings)), checks)
         == Ok(Arr(AsObjects(errors, "error") + AsObjects(warnings, "warning")), [])
  {
    hide Document, Encode, Print, ToText, ToDoc, Join, PrintItems, AsObject, ToJson, ToItems;
    var texts := Texts(errors, "error") + Texts(warnings, "warning");
    var docs := Docs(errors, "error") + Docs(warnings, "warning");
    var items := AsObjects(errors, "error") + AsObjects(warnings, "warning");
    forall i | 0 <= i < |texts| ensures texts[i] == Print(docs[i]) && ToJson(docs[i]) == items[i] && Nest(items[i]) <= 1 {
      var d := if i < |errors| then errors[i] else warnings[i - |errors|];
      var severity := if i < |errors| then "error" else "warning";
      TextIsPrinted(d, severity);
      DocIsObject(d, severity);
      ObjectIsFlat(d, severity);
    }
    JoinIsPrintItems(texts, docs);
    ToItemsAt(docs, items);
    FlatItems(items);
    ArrayDoc(docs, items, "\n", checks);
  }

  lemma ObjectIsFlat(d: Diagnostic, severity: string)
    ensures Nest(AsObject(d, severity)) == 1
  {
    hide NestMembers;
    FlatMembers(AsObject(d, severity).members);
  }

  lemma ArrayDoc(docs: seq<Doc>, items: seq<Json>, space: string, checks: bool)
    requires ToItems(docs) == items && NestItems(items) <= 1 && space == "\n"
    ensures Document(Encode("[" + PrintItems(docs) + "]" + space), checks) == Ok(Arr(items), [])
  {
    hide Document, Encode, PrintItems, ToItems;
    var d := DArr(docs);
    EncodeConcat(Print(d), space);
    AsciiChar('\n');
    assert IsWs('\n' as int);
    DocumentRoundTrip(d, Encode(space), checks);
  }
}
