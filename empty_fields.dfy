/** removeEmptyFields and isArrayEmpty of
    src/common/helpers/emptyFields.helper.ts. */
module EmptyFields {
  import opened Common
  import opened JsValues

  /** The characters `String.prototype.trim` removes: white space and line
      terminators. */
  predicate IsJsWhitespace(c: char) {
    || c == ' ' || c == '\t' || c == '\n' || c == '\r'
    || c == '\U{000B}' || c == '\U{000C}' || c == '\U{00A0}' || c == '\U{1680}'
    || ('\U{2000}' <= c <= '\U{200A}')
    || c == '\U{2028}' || c == '\U{2029}' || c == '\U{202F}' || c == '\U{205F}'
    || c == '\U{3000}' || c == '\U{FEFF}'
  }

  /** `s.trim() === ''`. */
  predicate TrimsToEmpty(s: string) {
    forall i :: 0 <= i < |s| ==> IsJsWhitespace(s[i])
  }

  /** The test the reduce applies to each value. */
  predicate Keep(v: JsValue) {
    v != Null && v != Undefined && (!v.Str? || !TrimsToEmpty(v.s))
  }

  /** The reduce over `Object.entries(obj)`: the accumulator after the first
      k entries. */
  function KeepEntries(entries: seq<Entry>): (r: seq<Entry>)
    ensures forall i :: 0 <= i < |r| ==> Keep(r[i].value)
  {
    if entries == [] then []
    else
      var last := entries[|entries| - 1];
      KeepEntries(entries[..|entries| - 1]) + (if Keep(last.value) then [last] else [])
  }

  lemma {:induction false} KeepEntriesMembers(entries: seq<Entry>)
    ensures forall e :: e in KeepEntries(entries) <==> e in entries && Keep(e.value)
  {
    if entries != [] {
      var init, last := entries[..|entries| - 1], entries[|entries| - 1];
      KeepEntriesMembers(init);
      assert entries == init + [last];
    }
  }

  lemma {:induction false} KeepEntriesOfKept(entries: seq<Entry>)
    requires forall i :: 0 <= i < |entries| ==> Keep(entries[i].value)
    ensures KeepEntries(entries) == entries
  {
    if entries != [] {
      var init := entries[..|entries| - 1];
      KeepEntriesOfKept(init);
      assert entries == init + [entries[|entries| - 1]];
    }
  }

  /** removeEmptyFields(obj): nothing for a falsy or non-object argument,
      otherwise the entries, in order, whose value is neither null, nor
      undefined, nor a string that trims to empty. */
  function RemoveEmptyFields(obj: JsValue): (r: seq<Entry>)
    ensures !Truthy(obj) || !obj.Obj? ==> r == []
    ensures obj.Obj? ==> forall e :: e in r <==> e in obj.entries && Keep(e.value)
    ensures |r| <= (if obj.Obj? then |obj.entries| else 0)
  {
    if !Truthy(obj) || !obj.Obj? then []
    else
      KeepEntriesMembers(obj.entries);
      KeepEntriesLength(obj.entries);
      KeepEntries(obj.entries)
  }

  lemma {:induction false} KeepEntriesLength(entries: seq<Entry>)
    ensures |KeepEntries(entries)| <= |entries|
  {
    if entries != [] {
      KeepEntriesLength(entries[..|entries| - 1]);
    }
  }

  /** Falsy values other than null, undefined and blank strings survive:
      `0` and `false` are kept. */
  lemma KeepsFalsyNonStrings(key: string, other: seq<Entry>)
    ensures Entry(key, Num(0.0)) in RemoveEmptyFields(Obj([Entry(key, Num(0.0))] + other))
    ensures Entry(key, Bool(false)) in RemoveEmptyFields(Obj([Entry(key, Bool(false))] + other))
    ensures Entry(key, Str(" ")) !in RemoveEmptyFields(Obj([Entry(key, Str(" "))] + other))
  {
    assert Entry(key, Str(" ")).value.s[0] == ' ';
  }

  /** removeEmptyFields is idempotent: what it keeps, it keeps again. */
  lemma RemoveEmptyFieldsIdempotent(obj: JsValue)
    ensures RemoveEmptyFields(Obj(RemoveEmptyFields(obj))) == RemoveEmptyFields(obj)
  {
    var r := RemoveEmptyFields(obj);
    forall i | 0 <= i < |r| ensures Keep(r[i].value) {
      assert r[i] in r;
    }
    KeepEntriesOfKept(r);
  }

  /** isArrayEmpty(data): a missing or empty array, or one whose every item
      loses all its fields. */
  function IsArrayEmpty(data: Option<seq<JsValue>>): (r: bool)
    ensures r <==> data.None? ||
                   forall i, e :: 0 <= i < |data.value| && data.value[i].Obj? && e in data.value[i].entries
                                  ==> !Keep(e.value)
  {
    var result := data.None? || |data.value| == 0 ||
                  (forall i :: 0 <= i < |data.value| ==> |RemoveEmptyFields(data.value[i])| == 0);
    assert result <==> (data.None? ||
                        forall i, e :: 0 <= i < |data.value| && data.value[i].Obj? && e in data.value[i].entries
                                       ==> !Keep(e.value)) by {
      if data.Some? {
        forall i | 0 <= i < |data.value|
          ensures |RemoveEmptyFields(data.value[i])| == 0 <==>
                    forall e :: data.value[i].Obj? && e in data.value[i].entries ==> !Keep(e.value)
        {
          var r := RemoveEmptyFields(data.value[i]);
          if data.value[i].Obj? && r != [] {
            assert r[0] in r;
          }
        }
      }
    }
    result
  }
}
