/** The photo library editor of a country (src/admin/components/FototecaEditor.js): the
    heading, the media-type filter over the loaded items, the add and edit forms, the file
    upload and gallery pick that fill in the url, and the request a save sends. The
    component's React state is the state of an `Editor` object. */
module FototecaEditor {
  import opened Wrappers
  import opened Json
  import Text
  import opened Seqs
  import opened Admin
  import Schema
  import Upload
  import CmsDb

  /** `sectionTitle`. */
  function SectionTitle(mediaType: Option<string>): string {
    if mediaType == Some("image") then "Fotos"
    else if mediaType == Some("video") then "Videos"
    else "Fototeca"
  }

  /** `if (mediaType)`: a type other than null or the empty text. */
  predicate Filtering(mediaType: Option<string>) {
    mediaType.Some? && mediaType.value != ""
  }

  /** An item of `GET /api/cms/countries/:code/fototeca`; `id` is the text the url carries. */
  datatype Item = Item(id: string, title: Option<string>, description: Option<string>, date: Option<string>,
                       mediaType: Option<string>, url: Option<string>)

  /** The items `loadItems` keeps: those of the editor's type, in order, or all of them when the
      editor has no type. */
  function LoadedItems(items: seq<Item>, mediaType: Option<string>): (r: seq<Item>)
    ensures Filtering(mediaType) ==> forall i :: i in r <==> i in items && i.mediaType == mediaType
    ensures !Filtering(mediaType) ==> r == items
    ensures IsSubsequence(r, items)
  {
    if Filtering(mediaType) then Filter(items, (i: Item) => i.mediaType == mediaType)
    else
      SubsequenceReflexive(items);
      items
  }

  /** The heading names what the grid holds: under "Fotos" only images, under "Videos" only
      videos. */
  lemma TitleMatchesItems(items: seq<Item>, mediaType: Option<string>)
    ensures SectionTitle(mediaType) == "Fotos" ==> forall i :: i in LoadedItems(items, mediaType) ==> i.mediaType == Some("image")
    ensures SectionTitle(mediaType) == "Videos" ==> forall i :: i in LoadedItems(items, mediaType) ==> i.mediaType == Some("video")
    ensures SectionTitle(mediaType) == "Fototeca" && mediaType.None? ==> LoadedItems(items, mediaType) == items
  {
  }

  /** `formData`. Every field but `url` is always a text; `url` holds whatever an upload answer
      or a gallery entry carried. */
  datatype Form = Form(title: string, date: string, description: string, mediaType: string, url: Json)

  /** The type a new item starts with: the editor's type, or 'image'. */
  function DefaultType(mediaType: Option<string>): string {
    if Filtering(mediaType) then mediaType.value else "image"
  }

  /** `openAddModal`: an empty form dated `today`. */
  function AddForm(mediaType: Option<string>, today: string): (f: Form)
    ensures f.title == "" && f.description == "" && f.url == JStr("") && f.date == today
    ensures Filtering(mediaType) ==> f.mediaType == mediaType.value
    ensures !Filtering(mediaType) ==> f.mediaType == "image"
  {
    Form("", today, "", DefaultType(mediaType), JStr(""))
  }

  /** `field || ''`. */
  function OrEmpty(v: Option<string>): string {
    if v.Some? then v.value else ""
  }

  /** `openEditModal(item)`: the item's fields, '' where absent or empty, and type 'image' where
      absent or empty. */
  function EditForm(item: Item): (f: Form)
    ensures f.title == OrEmpty(item.title) && f.date == OrEmpty(item.date) && f.description == OrEmpty(item.description)
    ensures f.url == JStr(OrEmpty(item.url))
    ensures item.mediaType.Some? && item.mediaType.value != "" ==> f.mediaType == item.mediaType.value
    ensures item.mediaType.None? || item.mediaType.value == "" ==> f.mediaType == "image"
  {
    Form(OrEmpty(item.title), OrEmpty(item.date), OrEmpty(item.description),
         if item.mediaType.Some? && item.mediaType.value != "" then item.mediaType.value else "image",
         JStr(OrEmpty(item.url)))
  }

  datatype Request = Request(verb: string, path: string, body: Form)

  /** What `handleSave` does with a form: refuse it with the "required" alert, throw (`trim`
      of a url that is not a text), or send a request. */
  datatype SaveStep = Refused(notice: string) | Crashed | Send(request: Request)

  const RequiredNotice: string := "El título y la URL son obligatorios"

  function SaveStepOf(form: Form, editing: Option<Item>, countryCode: string): (r: SaveStep)
    ensures r.Send? <==> !Text.IsBlank(form.title) && form.url.JStr? && !Text.IsBlank(form.url.s)
    ensures r.Refused? <==> Text.IsBlank(form.title) || (form.url.JStr? && Text.IsBlank(form.url.s))
    ensures r.Refused? ==> r.notice == RequiredNotice
    ensures r.Send? ==> r.request.body == form
    ensures r.Send? && editing.Some? ==>
              r.request == Request("PUT", "/api/cms/countries/" + countryCode + "/fototeca/" + editing.value.id, form)
    ensures r.Send? && editing.None? ==>
              r.request == Request("POST", "/api/cms/countries/" + countryCode + "/fototeca", form)
  {
    Text.TrimProperties(form.title);
    if Text.Trim(form.title) == "" then Refused(RequiredNotice)
    else if !form.url.JStr? then Crashed
    else
      Text.TrimProperties(form.url.s);
      if Text.Trim(form.url.s) == "" then Refused(RequiredNotice)
      else if editing.Some? then Send(Request("PUT", "/api/cms/countries/" + countryCode + "/fototeca/" + editing.value.id, form))
      else Send(Request("POST", "/api/cms/countries/" + countryCode + "/fototeca", form))
  }

  /** An `alert`: `text`, followed by the string form of `detail` when there is one. */
  datatype Notice = Notice(text: string, detail: Option<Json>)

  /** How the upload `fetch` ended: it (or reading its body) threw, or the server answered. */
  datatype UploadReply = UploadThrew(message: string) | UploadAnswered(ok: bool, data: Json)

  /** `files[0]` when `files && files.length > 0`: the first element of a non-empty list, the
      first character of a non-empty text, the `"0"` property of an object whose `length` is a
      positive number; None for every other value (its `length` is undefined). */
  function FirstFile(files: Json): (r: Option<Json>)
    ensures files.JArr? ==> (r.Some? <==> files.elems != []) && (r.Some? ==> r.value == files.elems[0])
    ensures files.JStr? ==> (r.Some? <==> files.s != "") && (r.Some? ==> r.value == JStr(files.s[..1]))
    ensures r.Some? ==> files.JArr? || files.JStr? || files.JObj?
  {
    match files
    case JArr(elems) => if elems != [] then Some(elems[0]) else None
    case JStr(s) => if s != "" then Some(JStr(s[..1])) else None
    case JObj(_) => if Get(files, "length").JNum? && Get(files, "length").n > 0 then Some(Get(files, "0")) else None
    case _ => None
  }

  /** What the success branch of the upload makes of the body: the first file's `url`, no
      files, or a TypeError, thrown by `data.files` on a `null` body or by `.url` on a `null`
      first file. */
  datatype UrlRead = Url(url: Json) | NoFiles | ReadThrew

  /** `data.files && data.files.length > 0 ? data.files[0].url : ...`. */
  function UploadedUrl(data: Json): (r: UrlRead)
    ensures data.JNull? ==> r == ReadThrew
    ensures !data.JNull? && FirstFile(Get(data, "files")).None? ==> r == NoFiles
    ensures !data.JNull? && FirstFile(Get(data, "files")).Some? ==>
              (r == ReadThrew <==> FirstFile(Get(data, "files")).value.JNull?)
    ensures r.Url? ==> r.url == Get(FirstFile(Get(data, "files")).value, "url")
  {
    match Prop(data, "files")
    case None => ReadThrew
    case Some(files) =>
      match FirstFile(files)
      case None => NoFiles
      case Some(first) =>
        match Prop(first, "url")
        case None => ReadThrew
        case Some(url) => Url(url)
  }

  /** A list of files whose first entry is an object gives that entry's url. */
  lemma UploadedUrlOfList(data: Json)
    requires Get(data, "files").JArr? && Get(data, "files").elems != [] && Get(data, "files").elems[0].JObj?
    ensures UploadedUrl(data) == Url(Get(Get(data, "files").elems[0], "url"))
  {
  }

  /** The files answer of `POST /api/upload/images` with one stored file puts that file's public
      address into the form; a rejected upload leaves the url alone and says why. */
  lemma UploadFillsUrl(f: Upload.StoredFile)
    ensures var r := Upload.UploadManyReply([f]);
      r.status == 200 && UploadedUrl(r.body) == Url(JStr(Upload.PublicUrl(f.filename)))
    ensures var r := Upload.UploadManyReply([]);
      r.status == 400 && UploadedUrl(r.body) == NoFiles && Or(Get(r.body, "error"), JStr("desconocido")) == JStr("No se subieron archivos")
  {
    var r := Upload.UploadManyReply([f]);
    assert Get(r.body, "files").JArr? && |Get(r.body, "files").elems| == 1;
  }

  /** A pick from the gallery gives the form the photo's url, so a titled form with a picked
      photo of non-blank url is sent. */
  lemma GalleryPickIsSaved(form: Form, p: Schema.Photo, editing: Option<Item>, countryCode: string)
    requires !Text.IsBlank(form.title) && !Text.IsBlank(p.url)
    ensures Get(CmsDb.GalleryEntry(p), "url") == JStr(p.url)
    ensures SaveStepOf(form.(url := Get(CmsDb.GalleryEntry(p), "url")), editing, countryCode).Send?
  {
  }

  /** The component state. */
  class Editor {
    const countryCode: string
    const mediaType: Option<string>
    var items: seq<Item>
    var loading: bool
    var showModal: bool
    var editing: Option<Item>
    var uploading: bool
    var showGallery: bool
    var galleryImages: seq<Json>
    var loadingGallery: bool
    var form: Form

    constructor (countryCode: string, mediaType: Option<string>)
      ensures this.countryCode == countryCode && this.mediaType == mediaType
      ensures items == [] && loading && !showModal && editing.None? && !uploading
      ensures !showGallery && galleryImages == [] && !loadingGallery
      ensures form == Form("", "", "", DefaultType(mediaType), JStr(""))
    {
      this.countryCode := countryCode;
      this.mediaType := mediaType;
      items := [];
      loading := true;
      showModal := false;
      editing := None;
      uploading := false;
      showGallery := false;
      galleryImages := [];
      loadingGallery := false;
      form := Form("", "", "", DefaultType(mediaType), JStr(""));
    }

    /** The end of `loadItems`: an answer replaces the items by those of the editor's type
        (`data.items || []`); a failed fetch keeps them. */
    method ItemsLoaded(reply: Reply<Option<seq<Item>>>)
      modifies this
      ensures reply.Delivered? ==> items == LoadedItems(reply.body.GetOr([]), mediaType)
      ensures !reply.Delivered? ==> items == old(items)
      ensures !loading
      ensures showModal == old(showModal) && editing == old(editing) && uploading == old(uploading) && form == old(form)
      ensures showGallery == old(showGallery) && galleryImages == old(galleryImages) && loadingGallery == old(loadingGallery)
    {
      if reply.Delivered? {
        items := LoadedItems(reply.body.GetOr([]), mediaType);
      }
      loading := false;
    }

    /** `openGalleryPicker`: the picker opens and the gallery starts loading. */
    method OpenGalleryPicker()
      modifies this
      ensures showGallery && loadingGallery
      ensures items == old(items) && loading == old(loading) && showModal == old(showModal) && editing == old(editing)
      ensures uploading == old(uploading) && form == old(form) && galleryImages == old(galleryImages)
    {
      loadingGallery := true;
      showGallery := true;
    }

    /** The end of `loadGalleryImages`: `data.images || []` on an answer. */
    method GalleryLoaded(reply: Reply<Option<seq<Json>>>)
      modifies this
      ensures reply.Delivered? ==> galleryImages == reply.body.GetOr([])
      ensures !reply.Delivered? ==> galleryImages == old(galleryImages)
      ensures !loadingGallery
      ensures items == old(items) && loading == old(loading) && showModal == old(showModal) && editing == old(editing)
      ensures uploading == old(uploading) && form == old(form) && showGallery == old(showGallery)
    {
      if reply.Delivered? {
        galleryImages := reply.body.GetOr([]);
      }
      loadingGallery := false;
    }

    method OpenAddModal(today: string)
      modifies this
      ensures editing.None? && form == AddForm(mediaType, today) && showModal
      ensures items == old(items) && loading == old(loading) && uploading == old(uploading)
      ensures showGallery == old(showGallery) && galleryImages == old(galleryImages) && loadingGallery == old(loadingGallery)
    {
      editing := None;
      form := AddForm(mediaType, today);
      showModal := true;
    }

    method OpenEditModal(item: Item)
      modifies this
      ensures editing == Some(item) && form == EditForm(item) && showModal
      ensures items == old(items) && loading == old(loading) && uploading == old(uploading)
      ensures showGallery == old(showGallery) && galleryImages == old(galleryImages) && loadingGallery == old(loadingGallery)
    {
      editing := Some(item);
      form := EditForm(item);
      showModal := true;
    }

    /** The part of `handleFileUpload` after a file was chosen: only an ok answer with files
        changes the form, and only its url; every other outcome returns the alert text.
        `typeError` is the message of the TypeError a property read of `null` raises, which the
        `catch` alerts like any other failure. */
    method FileUploaded(reply: UploadReply, typeError: string) returns (notice: Option<Notice>)
      modifies this
      ensures reply.UploadAnswered? && reply.ok && UploadedUrl(reply.data).Url? ==>
                form == old(form).(url := UploadedUrl(reply.data).url) && notice.None?
      ensures !(reply.UploadAnswered? && reply.ok && UploadedUrl(reply.data).Url?) ==> form == old(form) && notice.Some?
      ensures reply.UploadAnswered? && reply.ok && UploadedUrl(reply.data) == NoFiles ==>
                notice == Some(Notice("Error: No se recibió la URL del archivo", None))
      ensures reply.UploadAnswered? && reply.ok && UploadedUrl(reply.data) == ReadThrew ==>
                notice == Some(Notice("Error al subir: " + typeError, None))
      ensures reply.UploadAnswered? && !reply.ok && !reply.data.JNull? ==>
                notice == Some(Notice("Error al subir archivo: ", Some(Or(Get(reply.data, "error"), JStr("desconocido")))))
      ensures reply.UploadAnswered? && !reply.ok && reply.data.JNull? ==>
                notice == Some(Notice("Error al subir: " + typeError, None))
      ensures reply.UploadThrew? ==> notice == Some(Notice("Error al subir: " + reply.message, None))
      ensures !uploading
      ensures items == old(items) && loading == old(loading) && showModal == old(showModal) && editing == old(editing)
      ensures showGallery == old(showGallery) && galleryImages == old(galleryImages) && loadingGallery == old(loadingGallery)
    {
      uploading := true;
      match reply {
        case UploadThrew(message) =>
          notice := Some(Notice("Error al subir: " + message, None));
        case UploadAnswered(ok, data) =>
          if ok {
            match UploadedUrl(data) {
              case Url(url) =>
                form := form.(url := url);
                notice := None;
              case NoFiles =>
                notice := Some(Notice("Error: No se recibió la URL del archivo", None));
              case ReadThrew =>
                notice := Some(Notice("Error al subir: " + typeError, None));
            }
          } else {
            match Prop(data, "error") {
              case None =>
                notice := Some(Notice("Error al subir: " + typeError, None));
              case Some(error) =>
                notice := Some(Notice("Error al subir archivo: ", Some(Or(error, JStr("desconocido")))));
            }
          }
      }
      uploading := false;
    }

    /** `handleSelectFromGallery(image)`: the url becomes the image's and the picker closes. */
    method SelectFromGallery(image: Json)
      modifies this
      ensures form == old(form).(url := Get(image, "url")) && !showGallery
      ensures items == old(items) && loading == old(loading) && showModal == old(showModal) && editing == old(editing)
      ensures uploading == old(uploading) && galleryImages == old(galleryImages) && loadingGallery == old(loadingGallery)
    {
      form := form.(url := Get(image, "url"));
      showGallery := false;
    }

    /** What `handleSave` does with the current form. */
    function SaveStep(): SaveStep
      reads this
    {
      SaveStepOf(form, editing, countryCode)
    }

    /** The end of `handleSave` once the server answered: on success the dialog closes (and the
        items are fetched again); otherwise the returned text is what `alert` shows. A refusal
        whose body is `null` throws at `error.error`, and the `catch` only logs. */
    method SaveAnswered(ok: bool, data: Json) returns (notice: Option<Json>)
      modifies this
      ensures ok ==> !showModal && notice.None?
      ensures !ok ==> showModal == old(showModal)
      ensures !ok && !data.JNull? ==> notice == Some(Or(Get(data, "error"), JStr("Error al guardar")))
      ensures !ok && data.JNull? ==> notice.None?
      ensures items == old(items) && loading == old(loading) && editing == old(editing) && uploading == old(uploading)
      ensures form == old(form) && showGallery == old(showGallery) && galleryImages == old(galleryImages)
      ensures loadingGallery == old(loadingGallery)
    {
      if ok {
        showModal := false;
        notice := None;
      } else {
        match Prop(data, "error") {
          case None => notice := None;
          case Some(error) => notice := Some(Or(error, JStr("Error al guardar")));
        }
      }
    }
  }
}
