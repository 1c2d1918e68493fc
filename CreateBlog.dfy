/**
 * The post-creation form: five controlled inputs kept in one record, and the
 * request body built from it on submit (categories split on commas, trimmed
 * and upper-cased, a date stamped on).
 */
module CreateBlog {
  import opened Text
  import opened Blogs

  /** The `name` attributes of the form's inputs. */
  datatype Field = Title | Category | Description | CoverImage | Content

  /** The `formData` state: one string per input; `category` is the raw comma-separated text. */
  datatype FormData = FormData(
    title: string,
    category: string,
    description: string,
    coverImage: string,
    content: string)

  /** `formData[name]`. */
  function Get(form: FormData, name: Field): string {
    match name
    case Title => form.title
    case Category => form.category
    case Description => form.description
    case CoverImage => form.coverImage
    case Content => form.content
  }

  /** The updater `handleChange` passes to `setFormData`: `{ ...prev, [name]: value }`. */
  function Update(prev: FormData, name: Field, value: string): (next: FormData)
    ensures Get(next, name) == value
    ensures forall other :: other != name ==> Get(next, other) == Get(prev, other)
  {
    match name
    case Title => prev.(title := value)
    case Category => prev.(category := value)
    case Description => prev.(description := value)
    case CoverImage => prev.(coverImage := value)
    case Content => prev.(content := value)
  }

  /** Two records that agree on every field are the same record. */
  lemma FormExtensionality(a: FormData, b: FormData)
    requires forall name :: Get(a, name) == Get(b, name)
    ensures a == b
  {
    assert Get(a, Title) == Get(b, Title);
    assert Get(a, Category) == Get(b, Category);
    assert Get(a, Description) == Get(b, Description);
    assert Get(a, CoverImage) == Get(b, CoverImage);
    assert Get(a, Content) == Get(b, Content);
  }

  /**
   * Change events compose as expected: the last value typed into a field wins,
   * retyping a field's own value changes nothing, and edits to two different
   * fields can be applied in either order.
   */
  lemma UpdateLaws(form: FormData, name: Field, other: Field, v: string, w: string)
    ensures Update(Update(form, name, v), name, w) == Update(form, name, w)
    ensures Update(form, name, Get(form, name)) == form
    ensures other != name ==>
              Update(Update(form, name, v), other, w) == Update(Update(form, other, w), name, v)
  {
    FormExtensionality(Update(Update(form, name, v), name, w), Update(form, name, w));
    FormExtensionality(Update(form, name, Get(form, name)), form);
    if other != name {
      FormExtensionality(Update(Update(form, name, v), other, w), Update(Update(form, other, w), name, v));
    }
  }

  // ================================================================ category parsing

  /** A parsed category: no whitespace at either end and no lower-case letter. */
  predicate IsNormalized(c: string) {
    IsUpperCase(c) && (c == [] || (!IsSpace(c[0]) && !IsSpace(c[|c| - 1])))
  }

  /** `c.trim().toUpperCase()` for one piece. */
  function Normalize(piece: string): (c: string)
    ensures IsNormalized(c)
  {
    Upper(Trim(piece))
  }

  /** `.map((c) => c.trim().toUpperCase())`. */
  function NormalizeAll(pieces: seq<string>): (r: seq<string>)
    ensures |r| == |pieces|
    ensures forall k :: 0 <= k < |r| ==> IsNormalized(r[k])
    decreases |pieces|
  {
    if pieces == [] then [] else [Normalize(pieces[0])] + NormalizeAll(pieces[1..])
  }

  /**
   * `formData.category.split(",").map((c) => c.trim().toUpperCase())`: one
   * category per comma-separated piece, so one more than there are commas,
   * each trimmed and upper-cased.
   */
  function ParseCategories(input: string): (r: seq<string>)
    ensures |r| == Count(input, ',') + 1
    ensures forall k :: 0 <= k < |r| ==> IsNormalized(r[k])
  {
    NormalizeAll(Split(input, ','))
  }

  lemma {:induction false} NormalizeAllAt(pieces: seq<string>, k: nat)
    requires k < |pieces|
    ensures NormalizeAll(pieces)[k] == Normalize(pieces[k])
    decreases k
  {
    if k > 0 {
      NormalizeAllAt(pieces[1..], k - 1);
    }
  }

  /**
   * Parsing keeps the input's order and drops nothing: when the input is the
   * comma-joined `parts`, the categories are the normalized parts, one for one
   * (so repeated and empty parts are kept).
   */
  lemma ParseKeepsOrder(parts: seq<string>)
    requires |parts| >= 1
    requires forall i :: 0 <= i < |parts| ==> ',' !in parts[i]
    ensures |ParseCategories(Join(parts, ','))| == |parts|
    ensures forall k :: 0 <= k < |parts| ==> ParseCategories(Join(parts, ','))[k] == Upper(Trim(parts[k]))
  {
    SplitJoin(parts, ',');
    forall k | 0 <= k < |parts| ensures NormalizeAll(parts)[k] == Upper(Trim(parts[k])) {
      NormalizeAllAt(parts, k);
    }
  }

  // ================================================================ the request body

  /** The `blogData` object: the form spread, `category` replaced by the parsed array, `date` added. */
  function BlogData(form: FormData, date: string): (b: NewBlog)
    ensures b.title == form.title && b.description == form.description
    ensures b.coverImage == form.coverImage && b.content == form.content
    ensures b.category == ParseCategories(form.category) && b.date == date
  {
    NewBlog(form.title, ParseCategories(form.category), form.description, date, form.coverImage, form.content)
  }

  /**
   * An edit to one input shows up in exactly one field of the request body:
   * a text field is copied through, the category text is re-parsed.
   */
  lemma ChangeThenSubmit(form: FormData, name: Field, value: string, date: string)
    ensures BlogData(Update(form, name, value), date) ==
              match name
              case Title => BlogData(form, date).(title := value)
              case Category => BlogData(form, date).(category := ParseCategories(value))
              case Description => BlogData(form, date).(description := value)
              case CoverImage => BlogData(form, date).(coverImage := value)
              case Content => BlogData(form, date).(content := value)
  {
  }

  // ================================================================ examples

  lemma TrimFinance()
    ensures Trim("finance") == "finance"
  {
  }

  lemma UpperFinance()
    ensures Upper("finance") == "FINANCE"
  {
    var f := Upper("finance");
    assert f[0] == 'F' && f[1] == 'I' && f[2] == 'N' && f[3] == 'A' && f[4] == 'N' && f[5] == 'C' && f[6] == 'E';
  }

  lemma NormalizeFinance()
    ensures Normalize("finance") == "FINANCE"
  {
    TrimFinance();
    UpperFinance();
  }

  lemma NormalizeTech()
    ensures Normalize(" Tech") == "TECH"
  {
    TrimIsInnerBlock(" Tech", 1, 5);
    assert " Tech"[1..5] == "Tech";
    var t := Upper("Tech");
    assert t[0] == 'T' && t[1] == 'E' && t[2] == 'C' && t[3] == 'H';
  }

  lemma NormalizeA()
    ensures Normalize("a") == "A"
  {
    assert Trim("a") == "a";
    assert Upper("a")[0] == 'A';
  }

  lemma NormalizeB()
    ensures Normalize("b") == "B"
  {
    assert Trim("b") == "b";
    assert Upper("b")[0] == 'B';
  }

  lemma NormalizeEmpty()
    ensures Normalize("") == ""
  {
    assert Trim("") == "";
  }

  lemma NormalizeSpacedA()
    ensures Normalize(" A") == "A"
  {
    TrimIsInnerBlock(" A", 1, 2);
    assert " A"[1..2] == "A";
    assert Upper("A")[0] == 'A';
  }

  // The steps of the three examples below take the input as a parameter, so that
  // the verifier does not unfold the parse on the literal itself.

  lemma ParseFinanceTech(input: string)
    requires input == "finance, Tech"
    ensures ParseCategories(input) == ["FINANCE", "TECH"]
  {
    var parts := ["finance", " Tech"];
    assert Join(parts, ',') == input by {
      assert Join(parts[1..], ',') == " Tech";
    }
    ParseKeepsOrder(parts);
    NormalizeFinance();
    NormalizeTech();
  }

  lemma ParseRepeated(input: string)
    requires input == "a, A"
    ensures ParseCategories(input) == ["A", "A"]
  {
    var parts := ["a", " A"];
    assert Join(parts, ',') == input by {
      assert Join(parts[1..], ',') == " A";
    }
    ParseKeepsOrder(parts);
    NormalizeA();
    NormalizeSpacedA();
  }

  lemma JoinWithEmptyPiece(parts: seq<string>)
    requires parts == ["a", "", "b"]
    ensures Join(parts, ',') == "a,,b"
  {
    assert parts[1..][1..] == ["b"];
    assert Join(parts[1..], ',') == [] + [','] + "b";
    assert Join(parts, ',') == "a" + [','] + ",b";
  }

  lemma ParseWithEmptyPiece(input: string, parts: seq<string>)
    requires parts == ["a", "", "b"] && input == Join(parts, ',')
    ensures ParseCategories(input) == ["A", "", "B"]
  {
    assert forall i :: 0 <= i < |parts| ==> ',' !in parts[i];
    ParseKeepsOrder(parts);
    NormalizeA();
    NormalizeEmpty();
    NormalizeB();
  }

  lemma ParseEmptyPiece(input: string)
    requires input == "a,,b"
    ensures ParseCategories(input) == ["A", "", "B"]
  {
    var parts := ["a", "", "b"];
    JoinWithEmptyPiece(parts);
    ParseWithEmptyPiece(input, parts);
  }

  /** Input "finance, Tech" yields ["FINANCE", "TECH"]. */
  lemma ParseExampleFinanceTech()
    ensures ParseCategories("finance, Tech") == ["FINANCE", "TECH"]
  {
    ParseFinanceTech("finance, Tech");
  }

  /** Parsing does not de-duplicate: "a, A" yields ["A", "A"]. */
  lemma ParseExampleRepeated()
    ensures ParseCategories("a, A") == ["A", "A"]
  {
    ParseRepeated("a, A");
  }

  /** An empty piece yields an empty category: "a,,b" yields ["A", "", "B"]. */
  lemma ParseExampleEmptyPiece()
    ensures ParseCategories("a,,b") == ["A", "", "B"]
  {
    ParseEmptyPiece("a,,b");
  }

  // ================================================================ the component state

  /** The form component's `formData` state and its two event handlers. */
  class Form {
    var formData: FormData

    /** Every input starts empty. */
    constructor ()
      ensures formData == FormData("", "", "", "", "")
    {
      formData := FormData("", "", "", "", "");
    }

    /** `handleChange`: the input named `name` now holds `value`; every other input keeps its text. */
    method HandleChange(name: Field, value: string)
      modifies this
      ensures formData == Update(old(formData), name, value)
    {
      formData := Update(formData, name, value);
    }

    /** `handleSubmit`: the body handed to the creation request, stamped with the time `now`. */
    method HandleSubmit(now: string) returns (blogData: NewBlog)
      ensures blogData == BlogData(formData, now)
      ensures |blogData.category| == Count(formData.category, ',') + 1
    {
      blogData := BlogData(formData, now);
    }
  }
}
