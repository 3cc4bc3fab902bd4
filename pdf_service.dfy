/** The file handling of services/pdf_service.py: how an uploaded e-mail is
    renamed to a PDF, and how the per-kind layout settings in
    pdf_layout.json are read and replaced. The conversion of an e-mail to
    PDF bytes is a function passed in; the file is a value passed in and
    returned. */
module PdfService {
  import opened Common
  import opened Text

  // ------------------------------------------------------------------ upload

  /** The position of the last `c` in `s`, or -1: `s.rfind(c)`. */
  function LastIndexOf(s: string, c: char): (r: int)
    ensures -1 <= r < |s|
    ensures r >= 0 ==> s[r] == c
    ensures forall j | r < j < |s| :: s[j] != c
  {
    if s == [] then -1
    else if s[|s| - 1] == c then |s| - 1
    else LastIndexOf(s[..|s| - 1], c)
  }

  /** Between the last `/` and the dot at `dot` there is a character other
      than a dot, so the dot starts an extension rather than a hidden name. */
  predicate StemBefore(p: string, dot: int)
    requires dot < |p|
  {
    exists k | LastIndexOf(p, '/') + 1 <= k < dot :: p[k] != '.'
  }

  /** `os.path.splitext(p)` on a POSIX path: the extension runs from the last
      dot of the last path component, unless only dots precede it there. */
  function SplitExt(p: string): (r: (string, string))
    ensures r.0 + r.1 == p
    ensures r.1 == [] || (r.1[0] == '.' && forall j | 1 <= j < |r.1| :: r.1[j] != '.' && r.1[j] != '/')
  {
    var dot := LastIndexOf(p, '.');
    if dot > LastIndexOf(p, '/') && StemBefore(p, dot) then
      assert forall j | 1 <= j < |p[dot..]| :: p[dot..][j] == p[dot + j];
      (p[..dot], p[dot..])
    else (p, [])
  }

  /** `nome.lower().endswith(".eml")` */
  predicate IsEml(name: string) {
    EndsWith(Lower(name), ".eml")
  }

  /** An uploaded file: its name and bytes. */
  datatype Upload = Upload(name: string, content: seq<byte>)

  /** `processar_upload_pdf(uploaded_file)`: nothing for no upload; an e-mail
      gets a `.pdf` name and the converter's bytes; anything else passes
      through unchanged. */
  function ProcessUpload(upload: Option<Upload>, convert: seq<byte> -> seq<byte>): (r: (Option<string>, Option<seq<byte>>))
    ensures upload.None? ==> r == (None, None)
    ensures upload.Some? && !IsEml(upload.value.name) ==> r == (Some(upload.value.name), Some(upload.value.content))
    ensures upload.Some? && IsEml(upload.value.name) ==>
      r.1 == Some(convert(upload.value.content)) && r.0.Some? && EndsWith(r.0.value, ".pdf")
  {
    match upload
    case None => (None, None)
    case Some(u) =>
      if IsEml(u.name) then
        var renamed := SplitExt(u.name).0 + ".pdf";
        assert renamed[|renamed| - 4..] == ".pdf";
        (Some(renamed), Some(convert(u.content)))
      else (Some(u.name), Some(u.content))
  }

  /** A name ending in `.eml` in any letter case ends in a dot and three
      letters, so its extension is exactly those four characters, and the
      PDF name replaces them; a name that is only dots before them (such as
      `.eml`) has no extension and keeps them. */
  lemma EmlRenamed(name: string, convert: seq<byte> -> seq<byte>, content: seq<byte>)
    requires IsEml(name)
    ensures |name| >= 4
    ensures var n := |name| - 4;
      ProcessUpload(Some(Upload(name, content)), convert).0 ==
        Some(if StemBefore(name, n) then name[..n] + ".pdf" else name + ".pdf")
  {
    var n := |name| - 4;
    var low := Lower(name);
    assert low[n..] == ".eml";
    assert low[n] == '.' && low[n + 1] == 'e' && low[n + 2] == 'm' && low[n + 3] == 'l';
    assert name[n] == '.';
    forall j | n < j < |name| ensures name[j] != '.' && name[j] != '/' {
      assert LowerChar(name[j]) == low[j];
    }
    assert LastIndexOf(name, '.') == n;
  }

  // ------------------------------------------------------------ layout file

  /** The object in the file, or an empty one when the file is missing or
      unreadable. */
  function Entries<V>(doc: JsonDoc<V>): map<string, V> {
    if doc.ADict? then doc.entries else map[]
  }

  /** `load_pdf_config(tipo)`: the settings stored for the kind, or `empty`
      (the `{}` default) for a missing kind or a file that is missing,
      unreadable or not an object. */
  function LoadPdfConfig<V>(doc: JsonDoc<V>, tipo: string, empty: V): (v: V)
    ensures tipo in Entries(doc) ==> v == Entries(doc)[tipo]
    ensures tipo !in Entries(doc) ==> v == empty
  {
    if doc.ADict? && tipo in doc.entries then doc.entries[tipo] else empty
  }

  /** `save_pdf_config(tipo, config)`: the file written, or `None` when the
      item assignment raises because the file holds something other than an
      object. Only the kind `tipo` is replaced; every other kind is kept, and
      a missing or unreadable file counts as empty. */
  method SavePdfConfig<V>(doc: JsonDoc<V>, tipo: string, config: V) returns (written: Option<JsonDoc<V>>)
    ensures written.None? <==> doc.NotADict?
    ensures written.Some? ==> (
      && written.value.ADict?
      && written.value.entries.Keys == Entries(doc).Keys + {tipo}
      && written.value.entries[tipo] == config
      && forall k | k in Entries(doc) && k != tipo :: written.value.entries[k] == Entries(doc)[k])
  {
    var data: map<string, V>;
    match doc {
      case ADict(entries) =>
        data := entries;
      case NotADict =>
        return None;
      case _ =>
        data := map[];
    }
    data := data[tipo := config];
    written := Some(ADict(data));
  }

  /** Loading the kind just saved gives the saved settings, and every other
      kind loads as before. */
  lemma LoadAfterSave<V>(doc: JsonDoc<V>, tipo: string, config: V, empty: V)
    requires !doc.NotADict?
    ensures var saved := ADict(Entries(doc)[tipo := config]);
      && LoadPdfConfig(saved, tipo, empty) == config
      && forall k | k != tipo :: LoadPdfConfig(saved, k, empty) == LoadPdfConfig(doc, k, empty)
  {
  }
}
