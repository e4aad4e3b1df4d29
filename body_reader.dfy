/** The handler's body decoder (`readBody`): it trims the request text and,
    by the declared content type and the text's shape, parses it as JSON,
    splits it into `key=value` fields, wraps it as `{raw}` or returns `{}`.
    JSON.parse and decodeURIComponent are not modelled; they are supplied
    as a `Runtime`. */
module BodyReader {
  import opened Wrappers
  import opened JsText
  import opened JsValues

  /** The two library calls the decoder makes: JSON.parse and
      decodeURIComponent, each None where the call would throw. */
  datatype Runtime = Runtime(
    parseJson: string -> Option<JsValue>,
    decodeUri: string -> Option<string>)

  const JsonMediaType := "application/json"
  const FormMediaType := "application/x-www-form-urlencoded"

  /** Property name of the marker object that stands for a JSON body that
      did not parse. */
  const InvalidJsonFlag := "__invalid_json"

  /** The marker returned for an unparseable JSON body. */
  function InvalidJsonMarker(raw: string): (o: JsValue)
    ensures o.JObj? && InvalidJsonFlag in o.fields && Truthy(Some(o.fields[InvalidJsonFlag]))
  {
    JObj(map[InvalidJsonFlag := JBool(true), "__raw" := JStr(raw)])
  }

  // ---------------------------------------------------------------------
  // Branch selection

  datatype Branch = JsonBranch | FormBranch | RawBranch | EmptyBranch

  /** The content-type header lower-cased, "" when absent. */
  function MediaType(contentType: Option<string>): (m: string)
    ensures contentType.None? ==> m == []
    ensures contentType.Some? ==> |m| == |contentType.value|
    ensures forall i :: 0 <= i < |m| ==> !('A' <= m[i] <= 'Z')
    ensures contentType.Some? ==> forall i :: 0 <= i < |m| ==> m[i] == LowerChar(contentType.value[i])
  {
    Lower(match contentType case Some(ct) => ct case None => "")
  }

  /** The media-type test ignores the case of ASCII letters: a header
      written `Application/JSON; charset=UTF-8` names JSON. */
  lemma MediaTypeIgnoresCase()
    ensures Contains(MediaType(Some("Application/JSON; charset=UTF-8")), JsonMediaType)
  {
    var m := MediaType(Some("Application/JSON; charset=UTF-8"));
    assert m[..|JsonMediaType|] == JsonMediaType;
  }

  /** The regular expression `^[^=\s]+=`: the text starts with one or more
      characters that are neither `=` nor whitespace, followed by `=`. */
  predicate LooksLikeAssignment(raw: string) {
    exists k :: 0 < k < |raw| && raw[k] == '=' &&
      forall j :: 0 <= j < k ==> raw[j] != '=' && !IsJsSpace(raw[j])
  }

  /** Which of the four branches the decoder takes for the trimmed text `raw`. */
  function SelectBranch(contentType: Option<string>, raw: string): (b: Branch)
    ensures b == JsonBranch <==> Contains(MediaType(contentType), JsonMediaType)
    ensures b == RawBranch <==> b != JsonBranch && b != FormBranch && raw != []
    ensures b == EmptyBranch <==> b != JsonBranch && b != FormBranch && raw == []
  {
    var ct := MediaType(contentType);
    if Contains(ct, JsonMediaType) then JsonBranch
    else if Contains(ct, FormMediaType) || LooksLikeAssignment(raw) then FormBranch
    else if raw != [] then RawBranch
    else EmptyBranch
  }

  // ---------------------------------------------------------------------
  // The key=value branch

  /** The segments of a form body: carriage returns deleted, then both `&`
      and line feeds separate segments. */
  function Segments(raw: string): (segs: seq<string>)
    ensures |segs| >= 1
  {
    Split(ReplaceAll(RemoveAll(raw, '\r'), '&', '\n'), '\n')
  }

  /** `k` in `const [k, ...v] = line.split("=")`. */
  function KeyText(seg: string): string {
    Split(seg, '=')[0]
  }

  /** `v.join("=")` in `const [k, ...v] = line.split("=")`. */
  function ValueText(seg: string): string {
    Join(Split(seg, '=')[1..], '=')
  }

  /** What one segment contributes to the object. */
  datatype Entry =
    | Skipped                            // nothing before the first `=`
    | Undecodable                        // decodeURIComponent throws on the key or the value
    | Field(key: string, value: string)  // obj[key] = value

  /** One call of the `forEach` callback: the key is the text before the
      first `=`, the value the rest re-joined with `=`, both trimmed and then
      percent-decoded; an empty key (`if(!k) return;`) skips the segment. */
  function EntryOf(seg: string, decode: string -> Option<string>): Entry {
    var k := KeyText(seg);
    if k == [] then Skipped
    else match (decode(Trim(k)), decode(Trim(ValueText(seg))))
      case (Some(key), Some(value)) => Field(key, value)
      case _ => Undecodable
  }

  function Entries(segs: seq<string>, decode: string -> Option<string>): (es: seq<Entry>)
    ensures |es| == |segs|
    ensures forall i :: 0 <= i < |segs| ==> es[i] == EntryOf(segs[i], decode)
  {
    seq(|segs|, i requires 0 <= i < |segs| => EntryOf(segs[i], decode))
  }

  /** The object the entries build when applied in order; None as soon as
      one of them throws. */
  function Fold(es: seq<Entry>): Option<map<string, string>> {
    if es == [] then Some(map[])
    else match Fold(es[..|es| - 1])
      case None => None
      case Some(obj) =>
        match es[|es| - 1]
        case Skipped => Some(obj)
        case Undecodable => None
        case Field(k, v) => Some(obj[k := v])
  }

  /** The object the form branch builds from `segs`; None when decoding throws. */
  function FormFields(segs: seq<string>, decode: string -> Option<string>)
    : Option<map<string, string>>
  {
    Fold(Entries(segs, decode))
  }

  /** Lines 29-32 as the loop they are: `obj` is updated in place, one
      segment at a time. */
  method ParseForm(raw: string, decode: string -> Option<string>)
    returns (r: Option<map<string, string>>)
    ensures r == FormFields(Segments(raw), decode)
  {
    var segs := Segments(raw);
    ghost var es := Entries(segs, decode);
    var obj: map<string, string> := map[];
    var i := 0;
    while i < |segs|
      invariant 0 <= i <= |segs|
      invariant Fold(es[..i]) == Some(obj)
    {
      var seg := segs[i];
      assert es[..i + 1][..i] == es[..i] && es[..i + 1][i] == EntryOf(seg, decode);
      var k := KeyText(seg);
      if k != [] {
        var key := decode(Trim(k));
        var value := decode(Trim(ValueText(seg)));
        if key.None? || value.None? {
          FoldFailIff(es);
          return None;
        }
        obj := obj[key.value := value.value];
      }
      i := i + 1;
    }
    assert es[..i] == es;
    r := Some(obj);
  }

  // ---------------------------------------------------------------------
  // The decoder

  /** readBody on the already decoded request text; Err when
      decodeURIComponent throws. */
  function ReadBody(contentType: Option<string>, text: string, rt: Runtime)
    : (r: Result<JsValue, Thrown>)
    ensures r.Err? ==> r.error == UriMalformed && SelectBranch(contentType, Trim(text)) == FormBranch
    ensures SelectBranch(contentType, Trim(text)) == JsonBranch ==>
      r == Ok(if rt.parseJson(Trim(text)).Some? then rt.parseJson(Trim(text)).value
              else InvalidJsonMarker(Trim(text)))
    ensures SelectBranch(contentType, Trim(text)) == FormBranch ==>
      (r.Err? <==> FormFields(Segments(Trim(text)), rt.decodeUri).None?) &&
      (r.Ok? ==> r == Ok(StrObject(FormFields(Segments(Trim(text)), rt.decodeUri).value)))
    ensures SelectBranch(contentType, Trim(text)) == RawBranch ==>
      r == Ok(JObj(map["raw" := JStr(Trim(text))])) && Trim(text) != []
    ensures SelectBranch(contentType, Trim(text)) == EmptyBranch ==> r == Ok(JObj(map[]))
  {
    var raw := Trim(text);
    match SelectBranch(contentType, raw)
    case JsonBranch =>
      Ok(match rt.parseJson(raw) case Some(v) => v case None => InvalidJsonMarker(raw))
    case FormBranch =>
      (match FormFields(Segments(raw), rt.decodeUri)
       case Some(obj) => Ok(StrObject(obj))
       case None => Err(UriMalformed))
    case RawBranch => Ok(JObj(map["raw" := JStr(raw)]))
    case EmptyBranch => Ok(JObj(map[]))
  }

  /** readBody throws exactly when the form branch is taken and some
      segment's key or value is rejected by decodeURIComponent. */
  lemma ReadBodyThrowsIff(contentType: Option<string>, text: string, rt: Runtime)
    ensures var segs := Segments(Trim(text));
      ReadBody(contentType, text, rt).Err? <==>
        SelectBranch(contentType, Trim(text)) == FormBranch &&
        exists i :: 0 <= i < |segs| && EntryOf(segs[i], rt.decodeUri).Undecodable?
  {
    var segs := Segments(Trim(text));
    var es := Entries(segs, rt.decodeUri);
    FoldFailIff(es);
    assert FormFields(segs, rt.decodeUri) == Fold(es);
    if exists i :: 0 <= i < |es| && es[i].Undecodable? {
      var i :| 0 <= i < |es| && es[i].Undecodable?;
      assert EntryOf(segs[i], rt.decodeUri).Undecodable?;
    }
    if exists i :: 0 <= i < |segs| && EntryOf(segs[i], rt.decodeUri).Undecodable? {
      var i :| 0 <= i < |segs| && EntryOf(segs[i], rt.decodeUri).Undecodable?;
      assert es[i].Undecodable?;
    }
  }

  /** Outside the JSON branch readBody yields an object of strings. */
  lemma ReadBodyStrings(contentType: Option<string>, text: string, rt: Runtime)
    requires SelectBranch(contentType, Trim(text)) != JsonBranch
    requires ReadBody(contentType, text, rt).Ok?
    ensures var v := ReadBody(contentType, text, rt).value;
      v.JObj? && forall k :: k in v.fields ==> v.fields[k].JStr?
  {
  }

  // ---------------------------------------------------------------------
  // Properties

  /** The first `=` splits a segment: the key is everything before it and
      holds no `=`, the value is everything after it, further `=` included;
      a segment without `=` is all key and its value is "". */
  lemma KeyValueSplit(seg: string)
    ensures '=' !in KeyText(seg)
    ensures '=' in seg ==> seg == KeyText(seg) + "=" + ValueText(seg)
    ensures '=' !in seg ==> KeyText(seg) == seg && ValueText(seg) == ""
  {
    var parts := Split(seg, '=');
    JoinSplit(seg, '=');
    assert parts[0] in parts;
    if |parts| > 1 {
      assert Join(parts, '=') == parts[0] + "=" + Join(parts[1..], '=');
    }
  }

  /** A segment is skipped exactly when it is empty or starts with `=`, so
      a segment whose key is only blanks is kept. */
  lemma SkippedIff(seg: string, decode: string -> Option<string>)
    ensures EntryOf(seg, decode).Skipped? <==> seg == [] || seg[0] == '='
  {
  }

  /** A kept segment without `=` assigns "" decoded, the empty string, to
      its key. */
  lemma NoEqualsIsEmptyValue(seg: string, decode: string -> Option<string>)
    requires seg != [] && '=' !in seg
    requires decode(Trim(seg)).Some? && decode("") == Some("")
    ensures EntryOf(seg, decode) == Field(decode(Trim(seg)).value, "")
  {
    KeyValueSplit(seg);
    assert Trim("") == "";
  }

  /** The form branch is taken exactly when the content type is not JSON
      and either names the form encoding or the text has a first `=` with
      a non-empty, blank-free key before it. */
  lemma FormBranchIff(contentType: Option<string>, raw: string)
    ensures SelectBranch(contentType, raw) == FormBranch <==>
      !Contains(MediaType(contentType), JsonMediaType) &&
      (Contains(MediaType(contentType), FormMediaType) ||
       ('=' in raw && KeyText(raw) != [] &&
        forall j :: 0 <= j < |KeyText(raw)| ==> !IsJsSpace(KeyText(raw)[j])))
  {
    AssignmentShape(raw);
  }

  /** A segment whose key is only blanks, when decodeURIComponent maps ""
      to "", is kept and assigns its value to the key "". */
  lemma BlankKeyKept(seg: string, decode: string -> Option<string>)
    requires KeyText(seg) != [] && AllSpace(KeyText(seg))
    requires decode("") == Some("") && decode(Trim(ValueText(seg))).Some?
    ensures EntryOf(seg, decode) == Field("", decode(Trim(ValueText(seg))).value)
  {
    var k := KeyText(seg);
    TrimBlank(k);
    assert decode(Trim(k)) == Some("");
  }

  /** `a=b=c` decodes its key from "a" and its value from "b=c". */
  lemma FirstEqualsWins()
    ensures KeyText("a=b=c") == "a" && ValueText("a=b=c") == "b=c"
  {
  }

  /** The segments hold no carriage return, ampersand or line feed, and
      joined with line feeds they give back the text with carriage returns
      deleted and ampersands turned into line feeds. */
  lemma SegmentsSeparate(raw: string)
    ensures forall seg :: seg in Segments(raw) ==> '\r' !in seg && '&' !in seg && '\n' !in seg
    ensures Join(Segments(raw), '\n') == ReplaceAll(RemoveAll(raw, '\r'), '&', '\n')
  {
    var clean := ReplaceAll(RemoveAll(raw, '\r'), '&', '\n');
    JoinSplit(clean, '\n');
    forall seg | seg in Segments(raw)
      ensures '\r' !in seg && '&' !in seg
    {
      var i :| 0 <= i < |Segments(raw)| && Segments(raw)[i] == seg;
      PieceWithin(Segments(raw), i, '\n');
    }
  }

  /** Every character of a piece occurs in the joined string. */
  lemma {:induction false} PieceWithin(parts: seq<string>, i: nat, sep: char)
    requires i < |parts|
    ensures forall x :: x in parts[i] ==> x in Join(parts, sep)
  {
    if |parts| > 1 {
      if i > 0 {
        PieceWithin(parts[1..], i - 1, sep);
        assert parts[1..][i - 1] == parts[i];
        assert Join(parts, sep) == parts[0] + [sep] + Join(parts[1..], sep);
        forall x | x in parts[i] ensures x in Join(parts, sep) {
          var j :| 0 <= j < |Join(parts[1..], sep)| && Join(parts[1..], sep)[j] == x;
          assert Join(parts, sep)[|parts[0]| + 1 + j] == x;
        }
      } else {
        assert Join(parts, sep) == parts[0] + [sep] + Join(parts[1..], sep);
        forall x | x in parts[0] ensures x in Join(parts, sep) {
          var j :| 0 <= j < |parts[0]| && parts[0][j] == x;
          assert Join(parts, sep)[j] == x;
        }
      }
    }
  }

  /** The regular expression matches exactly when the text has an `=` and
      the text before the first one is non-empty and free of whitespace:
      the test agrees with the key the form branch then splits off. */
  lemma AssignmentShape(raw: string)
    ensures LooksLikeAssignment(raw) <==>
      '=' in raw && KeyText(raw) != [] &&
      forall j :: 0 <= j < |KeyText(raw)| ==> !IsJsSpace(KeyText(raw)[j])
  {
    KeyValueSplit(raw);
    var key := KeyText(raw);
    if LooksLikeAssignment(raw) {
      var k :| 0 < k < |raw| && raw[k] == '=' &&
        forall j :: 0 <= j < k ==> raw[j] != '=' && !IsJsSpace(raw[j]);
      assert raw == key + "=" + ValueText(raw) by { assert raw[k] in raw; }
      forall j | 0 <= j < |key| ensures raw[j] == key[j] && raw[j] != '=' {
        assert key[j] in key;
      }
      assert raw[|key|] == '=';
      assert !(k < |key|);
      assert !(|key| < k);
      forall j | 0 <= j < |key| ensures !IsJsSpace(key[j]) {
        assert key[j] == raw[j];
      }
    }
    if '=' in raw && key != [] && forall j :: 0 <= j < |key| ==> !IsJsSpace(key[j]) {
      assert raw == key + "=" + ValueText(raw);
      var k := |key|;
      assert raw[k] == '=';
      forall j | 0 <= j < k ensures raw[j] != '=' && !IsJsSpace(raw[j]) {
        assert raw[j] == key[j];
        assert key[j] in key;
      }
    }
  }

  /** Decoding throws exactly when some segment's key or value is
      rejected by decodeURIComponent. */
  lemma {:induction false} FoldFailIff(es: seq<Entry>)
    ensures Fold(es).None? <==> exists i :: 0 <= i < |es| && es[i].Undecodable?
  {
    if es != [] {
      var n := |es| - 1;
      var init := es[..n];
      FoldFailIff(init);
      if exists i :: 0 <= i < |init| && init[i].Undecodable? {
        var i :| 0 <= i < |init| && init[i].Undecodable?;
        assert es[i] == init[i];
      }
      if exists i :: 0 <= i < |es| && es[i].Undecodable? {
        var i :| 0 <= i < |es| && es[i].Undecodable?;
        if i < n {
          assert init[i] == es[i];
        }
      }
    }
  }

  /** A property exists exactly when some segment assigns it. */
  lemma {:induction false} FoldKeys(es: seq<Entry>, obj: map<string, string>)
    requires Fold(es) == Some(obj)
    ensures forall key :: key in obj <==> exists i :: 0 <= i < |es| && es[i].Field? && es[i].key == key
  {
    if es != [] {
      var n := |es| - 1;
      var init := es[..n];
      var prev :| Fold(init) == Some(prev);
      FoldKeys(init, prev);
      forall key ensures key in obj <==> exists i :: 0 <= i < |es| && es[i].Field? && es[i].key == key {
        if key in obj && !(es[n].Field? && es[n].key == key) {
          assert key in prev;
          var i :| 0 <= i < |init| && init[i].Field? && init[i].key == key;
          assert es[i] == init[i];
        }
        if exists i :: 0 <= i < |es| && es[i].Field? && es[i].key == key {
          var i :| 0 <= i < |es| && es[i].Field? && es[i].key == key;
          if i < n {
            assert init[i] == es[i];
          }
        }
      }
    }
  }

  /** A repeated key keeps the value of its last segment. */
  lemma {:induction false} FoldLastWins(es: seq<Entry>, obj: map<string, string>, i: nat)
    requires Fold(es) == Some(obj)
    requires i < |es| && es[i].Field?
    requires forall j :: i < j < |es| ==> !(es[j].Field? && es[j].key == es[i].key)
    ensures es[i].key in obj && obj[es[i].key] == es[i].value
  {
    var n := |es| - 1;
    var init := es[..n];
    var prev :| Fold(init) == Some(prev);
    if i < n {
      assert init[i] == es[i];
      forall j | i < j < |init| ensures !(init[j].Field? && init[j].key == init[i].key) {
        assert init[j] == es[j];
      }
      FoldLastWins(init, prev, i);
    }
  }
}
