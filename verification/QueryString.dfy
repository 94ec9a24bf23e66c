/** The console's query string: fields that fill the table of five hosts and name the SOCKS server. */
module QueryString {
  import opened Text

  datatype Host = Host(name: string, port: string, file: string)

  const HOSTS: nat := 5

  /** What the fields fill. */
  datatype Form = Form(hosts: seq<Host>, server: string, port: string)

  /** An exception (a missing `=`, or a host index that is not a digit below 5) ends the program.
      `Undefined` is the field `=value`, which takes the first character of an empty key. */
  datatype Outcome = Filled(form: Form) | Threw | Undefined

  /** The index that a key ends with. */
  function Index(key: string): int
    requires key != ""
  {
    key[|key| - 1] as int - '0' as int
  }

  function SetHost(form: Form, attribute: char, i: nat, value: string): Form
    requires i < |form.hosts|
  {
    var h := form.hosts[i];
    match attribute
    case 'h' => form.(hosts := form.hosts[i := h.(name := value)])
    case 'p' => form.(hosts := form.hosts[i := h.(port := value)])
    case 'f' => form.(hosts := form.hosts[i := h.(file := value)])
    case _ => form
  }

  /** One field. */
  function Fill(form: Form, field: string): (r: Outcome)
    requires |form.hosts| == HOSTS
    ensures r.Filled? ==> |r.form.hosts| == HOSTS
  {
    var k := Find(field, {'='});
    if k == |field| then Threw
    else
      var key, value := field[..k], field[k + 1..];
      if key == "sh" then Filled(form.(server := value))
      else if key == "sp" then Filled(form.(port := value))
      else if value == "" then Filled(form)
      else if key == "" then Undefined
      else if key[0] !in {'h', 'p', 'f'} then Filled(form)
      else if 0 <= Index(key) < HOSTS then Filled(SetHost(form, key[0], Index(key), value))
      else Threw
  }

  /** The fields in turn, up to the first that fails. */
  function FillAll(form: Form, fields: seq<string>): (r: Outcome)
    requires |form.hosts| == HOSTS
    ensures r.Filled? ==> |r.form.hosts| == HOSTS
    decreases |fields|
  {
    if fields == [] then Filled(form)
    else
      var r := FillAll(form, fields[..|fields| - 1]);
      if r.Filled? then Fill(r.form, fields[|fields| - 1]) else r
  }

  lemma {:induction false} FillFails(form: Form, fields: seq<string>, n: nat)
    requires |form.hosts| == HOSTS && n <= |fields| && !FillAll(form, fields[..n]).Filled?
    ensures FillAll(form, fields) == FillAll(form, fields[..n])
    decreases |fields|
  {
    if n < |fields| {
      assert fields[..|fields| - 1][..n] == fields[..n];
      FillFails(form, fields[..|fields| - 1], n);
    } else {
      assert fields[..n] == fields;
    }
  }

  const NO_HOST := Host("", "", "")

  const EMPTY_FORM := Form([NO_HOST, NO_HOST, NO_HOST, NO_HOST, NO_HOST], "", "")

  /** The program's globals: the array of hosts of the page, and the SOCKS server. */
  class Console {
    const hosts: array<Host>
    var server: string
    var port: string

    constructor ()
      ensures hosts.Length == 5 && fresh(hosts) && View() == EMPTY_FORM
      ensures server == "" && port == "" && forall i :: 0 <= i < 5 ==> hosts[i] == Host("", "", "")
    {
      hosts := new Host[HOSTS](_ => Host("", "", ""));
      server, port := "", "";
      new;
      assert hosts[..] == EMPTY_FORM.hosts;
    }

    ghost function View(): Form
      reads this, hosts
    {
      Form(hosts[..], server, port)
    }

    /** The body of the loop over the fields. */
    method FillField(s: string) returns (r: Outcome)
      requires hosts.Length == HOSTS
      modifies this, hosts
      ensures r == Fill(old(View()), s)
      ensures View() == if r.Filled? then r.form else old(View())
    {
      var k := Find(s, {'='});
      if k == |s| {
        return Threw;
      }
      var key, value := s[..k], s[k + 1..];
      if key == "sh" {
        server := value;
      } else if key == "sp" {
        port := value;
      } else if value != "" {
        if key == "" {
          return Undefined;
        }
        var attribute, pos := key[0], Index(key);
        if attribute in {'h', 'p', 'f'} {
          if !(0 <= pos < hosts.Length) {
            return Threw;
          }
          if attribute == 'h' {
            hosts[pos] := hosts[pos].(name := value);
          } else if attribute == 'p' {
            hosts[pos] := hosts[pos].(port := value);
          } else {
            hosts[pos] := hosts[pos].(file := value);
          }
          assert hosts[..] == SetHost(old(View()), attribute, pos, value).hosts;
        }
      }
      r := Filled(Form(hosts[..], server, port));
    }

    /** The loop over the fields; `None` for the query stands for an unset variable. */
    method ParseQuery(query: Option<string>) returns (r: Outcome)
      requires hosts.Length == HOSTS
      modifies this, hosts
      ensures r == FillAll(old(View()), Tokens(if query.Some? then query.value else "None", {'&'}))
      ensures r.Filled? ==> View() == r.form
    {
      var fields := SplitAndTrim(if query.Some? then query.value else "None", {'&'});
      ghost var was := View();
      r := Filled(Form(hosts[..], server, port));
      for n := 0 to |fields|
        invariant r.Filled? && View() == r.form && FillAll(was, fields[..n]) == r
      {
        assert fields[..n + 1][..n] == fields[..n];
        r := FillField(fields[n]);
        if !r.Filled? {
          FillFails(was, fields, n + 1);
          return;
        }
      }
      assert fields[..|fields|] == fields;
    }
  }

  // ---------------------------------------------------------------- a printer, and the round trip

  datatype Key = Name(i: nat) | Port(i: nat) | File(i: nat) | Server | ServerPort

  datatype Field = Field(key: Key, value: string)

  predicate Known(k: Key) {
    k.Server? || k.ServerPort? || k.i < HOSTS
  }

  function KeyText(k: Key): (t: string)
    requires Known(k)
    ensures |t| == 2
  {
    match k
    case Name(i) => ['h', Digit(i)]
    case Port(i) => ['p', Digit(i)]
    case File(i) => ['f', Digit(i)]
    case Server => "sh"
    case ServerPort => "sp"
  }

  /** A value that a printed field can hold; it may contain `=`. */
  predicate Plain(v: string) {
    Trimmed(v) && Free(v, {'&'})
  }

  predicate Printable(fields: seq<Field>) {
    forall i :: 0 <= i < |fields| ==> Known(fields[i].key) && Plain(fields[i].value)
  }

  function Printed(f: Field): (t: string)
    requires Known(f.key)
    ensures |t| >= 3
  {
    KeyText(f.key) + "=" + f.value
  }

  function Print(fields: seq<Field>): (t: string)
    requires fields != [] && Printable(fields)
    ensures |t| >= 3
  {
    if |fields| == 1 then Printed(fields[0]) else Printed(fields[0]) + ['&'] + Print(fields[1..])
  }

  function Get(form: Form, k: Key): string
    requires Known(k) && |form.hosts| == HOSTS
  {
    match k
    case Name(i) => form.hosts[i].name
    case Port(i) => form.hosts[i].port
    case File(i) => form.hosts[i].file
    case Server => form.server
    case ServerPort => form.port
  }

  lemma FindInField(f: Field)
    requires Known(f.key)
    ensures Find(Printed(f), {'='}) == 2
    ensures Printed(f)[..2] == KeyText(f.key) && Printed(f)[3..] == f.value
  {
    FindAfter(KeyText(f.key), "=" + f.value, {'='});
    assert Printed(f) == KeyText(f.key) + ("=" + f.value);
  }

  /** A printed field changes its own entry and no other; an empty host attribute is skipped. */
  lemma FillPrinted(form: Form, f: Field, k: Key)
    requires |form.hosts| == HOSTS && Known(f.key) && Known(k)
    ensures Fill(form, Printed(f)).Filled?
    ensures Get(Fill(form, Printed(f)).form, k) ==
      if k == f.key && (f.value != "" || k.Server? || k.ServerPort?) then f.value else Get(form, k)
  {
    FindInField(f);
  }

  lemma FieldEnds(f: Field)
    requires Known(f.key) && Plain(f.value)
    ensures Trimmed(Printed(f)) && Free(Printed(f), {'&'})
  {
    var t := Printed(f);
    assert f.value != "" ==> t[|t| - 1] == f.value[|f.value| - 1];
  }

  function Texts(fields: seq<Field>): seq<string>
    requires Printable(fields)
  {
    if fields == [] then [] else [Printed(fields[0])] + Texts(fields[1..])
  }

  lemma {:induction false} PrintEnds(fields: seq<Field>)
    requires fields != [] && Printable(fields)
    ensures Trimmed(Print(fields)) && Print(fields)[0] !in {'&'}
  {
    FieldEnds(fields[0]);
    if |fields| > 1 {
      PrintEnds(fields[1..]);
      var t, rest := Printed(fields[0]), Print(fields[1..]);
      assert (t + ['&'] + rest)[|t + ['&'] + rest| - 1] == rest[|rest| - 1];
    }
  }

  lemma FieldToken(f: Field, rest: string)
    requires Known(f.key) && Plain(f.value) && rest != "" && rest[0] !in {'&'}
    ensures TrimAll(Split(Printed(f) + ['&'] + rest, {'&'})) == [Printed(f)] + TrimAll(Split(rest, {'&'}))
  {
    FieldEnds(f);
    TrimOfTrimmed(Printed(f));
    SplitAt(Printed(f), '&', rest, {'&'});
  }

  lemma {:induction false} PrintedTokens(fields: seq<Field>)
    requires fields != [] && Printable(fields)
    ensures TrimAll(Split(Print(fields), {'&'})) == Texts(fields)
  {
    if |fields| == 1 {
      FieldEnds(fields[0]);
      TrimOfTrimmed(Printed(fields[0]));
      SplitFree(Printed(fields[0]), {'&'});
    } else {
      PrintEnds(fields[1..]);
      FieldToken(fields[0], Print(fields[1..]));
      PrintedTokens(fields[1..]);
    }
  }

  predicate Distinct(fields: seq<Field>) {
    forall i, j :: 0 <= i < j < |fields| ==> fields[i].key != fields[j].key
  }

  lemma {:induction false} TextsFront(fields: seq<Field>)
    requires fields != [] && Printable(fields)
    ensures Texts(fields) == Texts(fields[..|fields| - 1]) + [Printed(fields[|fields| - 1])]
    ensures |Texts(fields)| == |fields|
  {
    if |fields| > 1 {
      TextsFront(fields[1..]);
      assert fields[1..][..|fields| - 2] == fields[..|fields| - 1][1..];
    }
  }

  /** The field sets this entry; a host attribute is not set to an empty text. */
  predicate Sets(f: Field, k: Key) {
    f.key == k && (f.value != "" || k.Server? || k.ServerPort?)
  }

  /** An entry is what the last field that sets it says, and empty when none does. */
  ghost predicate Shows(form: Form, fields: seq<Field>, k: Key)
    requires |form.hosts| == HOSTS && Known(k)
  {
    && (forall i | 0 <= i < |fields| && Sets(fields[i], k) ::
          (forall j :: i < j < |fields| ==> !Sets(fields[j], k)) ==> Get(form, k) == fields[i].value)
    && ((forall i :: 0 <= i < |fields| ==> !Sets(fields[i], k)) ==> Get(form, k) == "")
  }

  lemma ShowsOneMore(form: Form, front: seq<Field>, f: Field, k: Key)
    requires |form.hosts| == HOSTS && Known(k) && Known(f.key) && Shows(form, front, k)
    ensures Fill(form, Printed(f)).Filled? && Shows(Fill(form, Printed(f)).form, front + [f], k)
  {
    hide Fill, Get;
    FillPrinted(form, f, k);
    var fields, form' := front + [f], Fill(form, Printed(f)).form;
    assert fields[|front|] == f && forall i :: 0 <= i < |front| ==> fields[i] == front[i];
    if !Sets(f, k) {
      assert Get(form', k) == Get(form, k);
    }
  }

  lemma EmptyShows(k: Key)
    requires Known(k)
    ensures Shows(EMPTY_FORM, [], k)
  {
  }

  lemma FillAllSnoc(form: Form, fields: seq<string>, field: string)
    requires |form.hosts| == HOSTS && FillAll(form, fields).Filled?
    ensures FillAll(form, fields + [field]) == Fill(FillAll(form, fields).form, field)
  {
    assert (fields + [field])[..|fields|] == fields;
  }

  /** What printed fields leave in an entry, starting from an empty form. */
  lemma {:induction false} FillAllPrinted(fields: seq<Field>, k: Key)
    requires Printable(fields) && Known(k)
    ensures FillAll(EMPTY_FORM, Texts(fields)).Filled? && Shows(FillAll(EMPTY_FORM, Texts(fields)).form, fields, k)
    decreases |fields|
  {
    if fields == [] {
      EmptyShows(k);
    } else {
      var front, f := fields[..|fields| - 1], fields[|fields| - 1];
      assert front + [f] == fields;
      FillAllPrinted(front, k);
      TextsFront(fields);
      FillAllSnoc(EMPTY_FORM, Texts(front), Printed(f));
      ShowsOneMore(FillAll(EMPTY_FORM, Texts(front)).form, front, f, k);
    }
  }

  /** Parsing undoes printing, in whatever order the fields come: each entry has the value of the last field
      that sets it, and is empty when none does. */
  lemma ParsePrinted(fields: seq<Field>, k: Key)
    requires fields != [] && Printable(fields) && Known(k)
    ensures var r := FillAll(EMPTY_FORM, Tokens(Print(fields), {'&'})); r.Filled? && Shows(r.form, fields, k)
  {
    PrintEnds(fields);
    PrintedTokens(fields);
    TrimOfTrimmed(Print(fields));
    FillAllPrinted(fields, k);
  }

  lemma SameForm(a: Form, b: Form)
    requires |a.hosts| == HOSTS == |b.hosts| && forall k :: Known(k) ==> Get(a, k) == Get(b, k)
    ensures a == b
  {
    assert Get(a, Server) == Get(b, Server) && Get(a, ServerPort) == Get(b, ServerPort);
    forall i: nat | i < HOSTS ensures a.hosts[i] == b.hosts[i] {
      assert Get(a, Name(i)) == Get(b, Name(i)) && Get(a, Port(i)) == Get(b, Port(i))
        && Get(a, File(i)) == Get(b, File(i));
    }
  }

  /** Among distinct fields, the one that sets an entry is the last that does. */
  lemma OnlySets(fields: seq<Field>, k: Key, i: nat)
    requires Distinct(fields) && i < |fields| && Sets(fields[i], k)
    ensures forall j :: 0 <= j < |fields| && j != i ==> !Sets(fields[j], k)
  {
    forall j | 0 <= j < |fields| && j != i ensures !Sets(fields[j], k) {
      assert if i < j then fields[i].key != fields[j].key else fields[j].key != fields[i].key;
    }
  }

  lemma SameEntry(a: Form, b: Form, fields: seq<Field>, other: seq<Field>, k: Key)
    requires |a.hosts| == HOSTS == |b.hosts| && Known(k) && Shows(a, fields, k) && Shows(b, other, k)
    requires Distinct(fields) && Distinct(other) && forall f :: f in fields <==> f in other
    ensures Get(a, k) == Get(b, k)
  {
    if i: nat :| i < |fields| && Sets(fields[i], k) {
      assert fields[i] in other;
      var j: nat :| j < |other| && other[j] == fields[i];
      OnlySets(fields, k, i);
      OnlySets(other, k, j);
    } else {
      forall j | 0 <= j < |other| ensures !Sets(other[j], k) {
        assert other[j] in fields;
      }
    }
  }

  /** The order of distinct fields makes no difference. */
  lemma OrderIgnored(fields: seq<Field>, other: seq<Field>)
    requires fields != [] && Printable(fields) && Distinct(fields)
    requires other != [] && Printable(other) && Distinct(other)
    requires forall f :: f in fields <==> f in other
    ensures FillAll(EMPTY_FORM, Tokens(Print(fields), {'&'})) == FillAll(EMPTY_FORM, Tokens(Print(other), {'&'}))
  {
    var a, b := FillAll(EMPTY_FORM, Tokens(Print(fields), {'&'})), FillAll(EMPTY_FORM, Tokens(Print(other), {'&'}));
    ParsePrinted(fields, Server);
    ParsePrinted(other, Server);
    forall k | Known(k) ensures Get(a.form, k) == Get(b.form, k) {
      ParsePrinted(fields, k);
      ParsePrinted(other, k);
      SameEntry(a.form, b.form, fields, other, k);
    }
    SameForm(a.form, b.form);
  }

  // ---------------------------------------------------------------- any field

  /** Any field, printed or not: the first `=` ends the key. A key other than sh and sp counts with its first
      character, the attribute, and its last, the host; without a value it does nothing. */
  lemma FieldRead(form: Form, key: string, value: string)
    requires |form.hosts| == 5 && '=' !in key
    ensures Fill(form, key + "=" + value) ==
      if key == "sh" then Filled(form.(server := value))
      else if key == "sp" then Filled(form.(port := value))
      else if value == "" then Filled(form)
      else if key == "" then Undefined
      else
        var i := key[|key| - 1] as int - 48;
        if key[0] != 'h' && key[0] != 'p' && key[0] != 'f' then Filled(form)
        else if i < 0 || i > 4 then Threw
        else
          var h := form.hosts[i];
          var h' := if key[0] == 'h' then Host(value, h.port, h.file)
                    else if key[0] == 'p' then Host(h.name, value, h.file) else Host(h.name, h.port, value);
          Filled(Form(form.hosts[i := h'], form.server, form.port))
  {
    var field := key + "=" + value;
    assert field == key + ("=" + value);
    FindAfter(key, "=" + value, {'='});
    assert field[..|key|] == key && field[|key| + 1..] == value;
  }

  lemma NoEquals(form: Form, field: string)
    requires |form.hosts| == 5 && '=' !in field
    ensures Fill(form, field) == Threw
  {
  }

  // ---------------------------------------------------------------- what does not parse

  /** A field that does not end the program, whatever the form. */
  predicate Good(field: string) {
    var k := Find(field, {'='});
    && k < |field|
    && (k + 1 < |field| && field[..k] !in {"sh", "sp"} ==>
          k > 0 && (field[0] in {'h', 'p', 'f'} ==> '0' <= field[k - 1] <= '4'))
  }

  /** A query parses exactly when each of its fields is good. */
  lemma {:induction false} ParsesWhenGood(form: Form, fields: seq<string>)
    requires |form.hosts| == HOSTS
    ensures FillAll(form, fields).Filled? <==> forall i :: 0 <= i < |fields| ==> Good(fields[i])
    decreases |fields|
  {
    if fields != [] {
      var front, last := fields[..|fields| - 1], fields[|fields| - 1];
      ParsesWhenGood(form, front);
      assert fields == front + [last];
    }
  }

  lemma FillOne(form: Form, field: string)
    requires |form.hosts| == HOSTS
    ensures FillAll(form, [field]) == Fill(form, field)
  {
    assert [field][..0] == [];
  }

  /** An unset variable, which is read as "None", and an empty query both end the program. */
  lemma NoQueryThrows(form: Form)
    requires |form.hosts| == HOSTS
    ensures FillAll(form, Tokens("None", {'&'})) == Threw == FillAll(form, Tokens("", {'&'}))
  {
    SplitFree("None", {'&'});
    SplitFree("", {'&'});
    TrimOfTrimmed("None");
    TrimOfTrimmed("");
    FillOne(form, "None");
    FillOne(form, "");
  }
}
