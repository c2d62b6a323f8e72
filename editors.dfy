/** The editor-set operations of the App component: add, delete and update
    each build a new sequence of editors from the current one. A refused
    operation reports the message the source shows with `alert` instead. */
module Editors {
  import opened Types
  import Constants

  /** What an operation hands on: the new editors to push into the history,
      or the message of an alert (and no change). */
  datatype Outcome = Updated(editors: seq<Editor>) | Alerted(message: string)

  /** `editors.some(e => e.language === lang)`. */
  predicate HasLanguage(s: seq<Editor>, l: Language) {
    exists i :: 0 <= i < |s| && s[i].language == l
  }

  /** At most one editor per language. */
  predicate OnePerLanguage(s: seq<Editor>) {
    forall i, j :: 0 <= i < j < |s| ==> s[i].language != s[j].language
  }

  predicate UniqueIds(s: seq<Editor>) {
    forall i, j :: 0 <= i < j < |s| ==> s[i].id != s[j].id
  }

  /** An id is either the bare tag of the editor's language (the seeds) or
      that tag, a '-' and a decimal numeral (the ids `addEditor` makes). */
  predicate IdShape(e: Editor) {
    var t := Tag(e.language);
    || e.id == t
    || (&& |e.id| > |t| + 1
        && e.id[..|t|] == t
        && e.id[|t|] == '-'
        && forall k :: |t| < k < |e.id| ==> IsDigit(e.id[k]))
  }

  /** The invariant the guards of the operations maintain. */
  predicate WellFormed(s: seq<Editor>) {
    OnePerLanguage(s) && forall i :: 0 <= i < |s| ==> IdShape(s[i])
  }

  /** The id of an editor added at instant `now`: `${lang}-${Date.now()}`. */
  function NewId(lang: Language, now: nat): (id: string)
    ensures |id| > |Tag(lang)| && id[..|Tag(lang)|] == Tag(lang) && '-' in id
  {
    assert (Tag(lang) + "-" + Decimal(now))[|Tag(lang)|] == '-';
    Tag(lang) + "-" + Decimal(now)
  }

  /** The editor `addEditor` appends. */
  function NewEditor(lang: Language, now: nat): (e: Editor)
    ensures e.language == lang && e.title == Upper(lang)
    ensures e.code == "/* New " + Upper(lang) + " code here */"
    ensures e.id == NewId(lang, now) && IdShape(e) && e.id != Tag(lang)
  {
    var e := Editor(NewId(lang, now), Upper(lang), lang, "/* New " + Upper(lang) + " code here */");
    var t := Tag(lang);
    assert e.id[..|t|] == t && e.id[|t|] == '-' && e.id[|t| + 1..] == Decimal(now);
    e
  }

  /** `addEditor(lang)`: refused when an editor of `lang` exists; otherwise
      the same editors with one new editor of `lang` at the end. */
  function AddEditor(editors: seq<Editor>, lang: Language, now: nat): (r: Outcome)
    ensures r.Alerted? <==> HasLanguage(editors, lang)
    ensures r.Alerted? ==> r.message == Upper(lang) + " editor already exists."
    ensures r.Updated? ==>
      && |r.editors| == |editors| + 1
      && r.editors[..|editors|] == editors
      && r.editors[|editors|] == NewEditor(lang, now)
  {
    if HasLanguage(editors, lang) then
      Alerted(Upper(lang) + " editor already exists.")
    else
      Updated(editors + [NewEditor(lang, now)])
  }

  /** `editors.filter(e => e.id !== id)`. */
  function RemoveId(s: seq<Editor>, id: string): (r: seq<Editor>)
    ensures |r| <= |s|
    ensures forall e :: e in r <==> e in s && e.id != id
    ensures (forall i :: 0 <= i < |s| ==> s[i].id != id) ==> r == s
  {
    if s == [] then []
    else if s[0].id == id then RemoveId(s[1..], id)
    else [s[0]] + RemoveId(s[1..], id)
  }

  /** The filter on one editor keeps it exactly when its id differs. */
  lemma RemoveIdOne(e: Editor, id: string)
    ensures RemoveId([e], id) == if e.id == id then [] else [e]
  {
    assert [e][1..] == [];
  }

  /** The filter distributes over concatenation: the kept editors stay in
      their order, each as often as it occurs. With `RemoveIdOne` this
      determines the filter on every sequence. */
  lemma {:induction false} RemoveIdAppend(s: seq<Editor>, t: seq<Editor>, id: string)
    ensures RemoveId(s + t, id) == RemoveId(s, id) + RemoveId(t, id)
    decreases |s|
  {
    if s == [] {
      assert s + t == t;
    } else {
      assert (s + t)[0] == s[0] && (s + t)[1..] == s[1..] + t;
      RemoveIdAppend(s[1..], t, id);
    }
  }

  /** `deleteEditor(id)`: refused while at most one editor is open;
      otherwise every editor with that id is dropped. */
  function DeleteEditor(editors: seq<Editor>, id: string): (r: Outcome)
    ensures r.Alerted? <==> |editors| <= 1
    ensures r.Alerted? ==> r.message == "You can't close the last editor!"
    ensures r.Updated? ==> r.editors == RemoveId(editors, id)
  {
    if |editors| <= 1 then Alerted("You can't close the last editor!")
    else Updated(RemoveId(editors, id))
  }

  /** `updateEditorCode(id, value)`: a map that replaces the code of the
      editors whose id matches and copies every other editor. */
  function UpdateEditorCode(s: seq<Editor>, id: string, value: string): (r: seq<Editor>)
    ensures |r| == |s|
    ensures forall i :: 0 <= i < |s| ==>
      && r[i].id == s[i].id && r[i].title == s[i].title && r[i].language == s[i].language
      && r[i].code == if s[i].id == id then value else s[i].code
  {
    if s == [] then []
    else [if s[0].id == id then s[0].(code := value) else s[0]] + UpdateEditorCode(s[1..], id, value)
  }

  // ---- The invariant and what it buys ----

  /** The seeds satisfy the invariant. */
  lemma DefaultsWellFormed()
    ensures WellFormed(Constants.DefaultEditors)
    ensures |Constants.DefaultEditors| >= 1
  {
    Constants.DefaultEditorsShape();
  }

  /** An id starts with the first letter of its language's tag. */
  lemma IdHead(e: Editor)
    requires IdShape(e)
    ensures |e.id| > 0 && e.id[0] == Tag(e.language)[0]
  {
    var t := Tag(e.language);
    if e.id != t {
      assert e.id[..|t|][0] == e.id[0];
    }
  }

  /** One editor per language and well-shaped ids give unique ids. */
  lemma WellFormedUniqueIds(s: seq<Editor>)
    requires WellFormed(s)
    ensures UniqueIds(s)
  {
    forall i, j | 0 <= i < j < |s| ensures s[i].id != s[j].id {
      IdHead(s[i]);
      IdHead(s[j]);
      TagHeadDetermines(s[i].language, s[j].language);
    }
  }

  /** No generated id equals a seed id: the generated one holds a '-'. */
  lemma NewIdNotDefault(lang: Language, now: nat)
    ensures forall i :: 0 <= i < |Constants.DefaultEditors| ==>
      Constants.DefaultEditors[i].id != NewId(lang, now)
  {
    Constants.DefaultEditorsShape();
  }

  lemma AddPreservesWellFormed(s: seq<Editor>, lang: Language, now: nat)
    requires WellFormed(s)
    ensures AddEditor(s, lang, now).Updated? ==> WellFormed(AddEditor(s, lang, now).editors)
  {
    var r := AddEditor(s, lang, now);
    if r.Updated? {
      var t := r.editors;
      assert t == s + [NewEditor(lang, now)];
      forall i, j | 0 <= i < j < |t| ensures t[i].language != t[j].language {
        if j == |s| {
          assert t[i] == s[i];
        }
      }
    }
  }

  /** The id an accepted add generates is not already in use. */
  lemma AddedIdIsFresh(s: seq<Editor>, lang: Language, now: nat)
    requires WellFormed(s)
    requires !HasLanguage(s, lang)
    ensures forall i :: 0 <= i < |s| ==> s[i].id != NewId(lang, now)
  {
    AddPreservesWellFormed(s, lang, now);
    WellFormedUniqueIds(s + [NewEditor(lang, now)]);
    assert forall i :: 0 <= i < |s| ==> (s + [NewEditor(lang, now)])[i] == s[i];
  }

  lemma TailWellFormed(s: seq<Editor>)
    requires s != [] && WellFormed(s)
    ensures WellFormed(s[1..])
  {
    forall i, j | 0 <= i < j < |s[1..]| ensures s[1..][i].language != s[1..][j].language {
      assert s[1..][i] == s[i + 1] && s[1..][j] == s[j + 1];
    }
    forall i | 0 <= i < |s[1..]| ensures IdShape(s[1..][i]) {
      assert s[1..][i] == s[i + 1];
    }
  }

  /** Putting an editor of a language not yet present in front keeps the
      invariant. */
  lemma ConsWellFormed(x: Editor, rest: seq<Editor>)
    requires WellFormed(rest) && IdShape(x)
    requires forall e :: e in rest ==> e.language != x.language
    ensures WellFormed([x] + rest)
  {
    var r := [x] + rest;
    forall i, j | 0 <= i < j < |r| ensures r[i].language != r[j].language {
      assert r[j] == rest[j - 1];
      if i > 0 {
        assert r[i] == rest[i - 1];
      }
    }
    forall i | 0 <= i < |r| ensures IdShape(r[i]) {
      if i > 0 {
        assert r[i] == rest[i - 1];
      }
    }
  }

  lemma {:induction false} RemovePreservesWellFormed(s: seq<Editor>, id: string)
    requires WellFormed(s)
    ensures WellFormed(RemoveId(s, id))
  {
    if s != [] {
      TailWellFormed(s);
      RemovePreservesWellFormed(s[1..], id);
      if s[0].id != id {
        var rest := RemoveId(s[1..], id);
        forall e | e in rest ensures e.language != s[0].language {
          var j :| 0 <= j < |s[1..]| && s[1..][j] == e;
          assert s[j + 1] == e;
        }
        ConsWellFormed(s[0], rest);
      }
    }
  }

  /** Dropping position `k > 0` is keeping the head and dropping `k - 1`
      in the tail. */
  lemma DropAtTail<T>(s: seq<T>, k: nat)
    requires 0 < k < |s|
    ensures [s[0]] + (s[1..][..k - 1] + s[1..][k..]) == s[..k] + s[k + 1..]
  {
    assert s[..k] == [s[0]] + s[1..][..k - 1];
    assert s[k + 1..] == s[1..][k..];
  }

  /** When no other editor shares the id at position `k`, deleting that id
      removes exactly that editor and keeps the others in order. */
  lemma {:induction false} RemoveIdAt(s: seq<Editor>, k: nat)
    requires k < |s|
    requires forall i :: 0 <= i < |s| && i != k ==> s[i].id != s[k].id
    ensures RemoveId(s, s[k].id) == s[..k] + s[k + 1..]
  {
    var t := s[1..];
    if k == 0 {
      assert forall i :: 0 <= i < |t| ==> t[i].id != s[0].id by {
        forall i | 0 <= i < |t| ensures t[i].id != s[0].id {
          assert t[i] == s[i + 1];
        }
      }
      assert s[..0] + s[1..] == t;
    } else {
      assert t[k - 1] == s[k];
      forall i | 0 <= i < |t| && i != k - 1 ensures t[i].id != t[k - 1].id {
        assert t[i] == s[i + 1];
      }
      RemoveIdAt(t, k - 1);
      assert s[0].id != s[k].id;
      assert RemoveId(s, s[k].id) == [s[0]] + RemoveId(t, s[k].id);
      DropAtTail(s, k);
    }
  }

  /** The guard is enough to keep an editor open when ids are unique. */
  lemma DeleteKeepsOne(s: seq<Editor>, id: string)
    requires UniqueIds(s)
    ensures DeleteEditor(s, id).Updated? ==> |DeleteEditor(s, id).editors| >= |s| - 1 >= 1
  {
    if |s| > 1 {
      if k :| 0 <= k < |s| && s[k].id == id {
        assert forall i :: 0 <= i < |s| && i != k ==> s[i].id != s[k].id by {
          forall i | 0 <= i < |s| && i != k ensures s[i].id != s[k].id {
            if i < k { assert s[i].id != s[k].id; } else { assert s[k].id != s[i].id; }
          }
        }
        RemoveIdAt(s, k);
      }
    }
  }

  /** Without unique ids the guard is not enough: two editors that share an
      id are both dropped and no editor is left. */
  lemma DeleteNeedsUniqueIds()
    ensures var s := [Editor("x", "HTML", Html, ""), Editor("x", "CSS", Css, "")];
      DeleteEditor(s, "x") == Updated([])
  {
    var s := [Editor("x", "HTML", Html, ""), Editor("x", "CSS", Css, "")];
    assert RemoveId(s[1..], "x") == [];
  }

  lemma UpdatePreservesWellFormed(s: seq<Editor>, id: string, value: string)
    requires WellFormed(s)
    ensures WellFormed(UpdateEditorCode(s, id, value))
  {
    var r := UpdateEditorCode(s, id, value);
    forall i | 0 <= i < |r| ensures IdShape(r[i]) {
      assert r[i].id == s[i].id && r[i].language == s[i].language;
    }
  }

  /** Updating twice with the same text is the same as updating once. */
  lemma UpdateIdempotent(s: seq<Editor>, id: string, value: string)
    ensures UpdateEditorCode(UpdateEditorCode(s, id, value), id, value) == UpdateEditorCode(s, id, value)
  {
  }

  /** Writing back the text an editor already holds gives an equal set of
      editors (the history still records it: see Playground). */
  lemma UpdateWithSameCode(s: seq<Editor>, k: nat)
    requires UniqueIds(s) && k < |s|
    ensures UpdateEditorCode(s, s[k].id, s[k].code) == s
  {
  }
}
