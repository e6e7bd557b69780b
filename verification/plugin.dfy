/**
 The four handlers the host calls: `uploadHandle`, `modifyHandle`,
 `deleteHandle` and `attachmentHandle`. Each takes the options, the current
 connection holder and the answers of the object store, and gives back the new
 holder, the store calls it issued and what it returned or threw.
 */
module Plugin {
  import opened Text
  import opened SavePath
  import opened PathInfo
  import opened Keys
  import opened Url
  import opened Connection

  /** `$file` as the host passes it to `uploadHandle`. */
  datatype UploadFile = UploadFile(name: String, tmpName: String, size: nat, mimeType: String)

  /** The array `uploadHandle` returns for the host to persist. */
  datatype Descriptor = Descriptor(
    name: String,
    path: String,
    size: nat,
    fileType: String,
    url: String,
    mime: String)

  /** `$content` for delete and lookup: only `attachment->path` is read. */
  datatype Attachment = Attachment(path: String)
  datatype Content = Content(attachment: Attachment)

  /** The requests made to the store. */
  datatype StoreCall =
    | PutObject(bucket: String, key: String, body: String, acl: String)
    | DeleteObject(bucket: String, key: String)
    | GetObjectUrl(bucket: String, key: String)

  /** A store answer: success with the reported object URL (ignored on
      delete), or an `AwsException` with its message. */
  datatype Reply = Done(objectUrl: String) | Fault(message: String)

  /** The object store: `send` answers `putObject`/`deleteObject`, and
      `objectUrl` is `getObjectUrl`, taken here as never failing (its
      exceptions are left out). */
  datatype Store = Store(
    send: (Client, StoreCall) -> Reply,
    objectUrl: (Client, String, String) -> String)

  /** What the host does not give the core directly: the date, the hash and
      the mime lookup (`Typecho_Common::mimeContentType`). */
  datatype Env = Env(
    today: Date,
    md5: String -> String,
    mimeOf: String -> String)

  /** A `Typecho_Widget_Exception` carrying a message for the user. */
  datatype WidgetException = WidgetException(message: String)

  /** A handler either returns a value or throws. */
  datatype Outcome<T> = Returned(value: T) | Threw(exception: WidgetException)

  /** One handler invocation: the holder afterwards, the store calls made in
      order, and the outcome. */
  datatype Step<T> = Step(holder: Holder, calls: seq<StoreCall>, outcome: Outcome<T>)

  const PublicRead: String := "public-read"

  /** The messages of `_t('文件上传失败：%s', …)` and `_t('文件删除失败：%s', …)`
      with the `%s` filled in. */
  const UploadFailedPrefix: String := "文件上传失败："
  const DeleteFailedPrefix: String := "文件删除失败："

  function Failure(prefix: String, cause: String): (e: WidgetException)
    ensures StartsWith(e.message, prefix) && EndsWith(e.message, cause)
    ensures e.message[|prefix|..] == cause
  {
    var m := prefix + cause;
    assert m[..|prefix|] == prefix;
    assert m[|prefix|..] == cause;
    WidgetException(m)
  }

  /** The upstream message can be read back from a failure, so distinct
      causes give distinct exceptions. */
  lemma FailureKeepsCause(prefix: String, c1: String, c2: String)
    requires Failure(prefix, c1) == Failure(prefix, c2)
    ensures c1 == c2
  {
    assert c1 == Failure(prefix, c1).message[|prefix|..];
  }

  /** The key `uploadHandle` computes for a file on a given day. */
  function UploadKey(opts: Options, env: Env, file: UploadFile): String
  {
    ObjectKey(FormatSavePath(opts.savePath, env.today), file.name, env.md5)
  }

  /** The put request `uploadHandle` sends. */
  function PutFor(opts: Options, env: Env, file: UploadFile): StoreCall
  {
    PutObject(opts.bucket, UploadKey(opts, env, file), file.tmpName, PublicRead)
  }

  /** `uploadHandle($file)` */
  function Upload(opts: Options, holder: Holder, file: UploadFile, env: Env, store: Store): (step: Step<Descriptor>)
    ensures step.holder == InitConnection(holder, opts).0
    ensures step.calls == [PutFor(opts, env, file)]
    ensures var reply := store.send(InitConnection(holder, opts).1, PutFor(opts, env, file));
      && (step.outcome.Returned? <==> reply.Done?)
      && (step.outcome.Threw? ==> step.outcome.exception == Failure(UploadFailedPrefix, reply.message))
      && (step.outcome.Returned? ==>
            var d := step.outcome.value;
            && d.name == file.name
            && d.size == file.size
            && d.fileType == file.mimeType
            && d.path == UploadKey(opts, env, file)
            && d.url == ResolveUrl(opts.bucketDomain, d.path, reply.objectUrl)
            && d.mime == env.mimeOf(d.path))
  {
    var (holder', client) := InitConnection(holder, opts);
    var key := UploadKey(opts, env, file);
    var request := PutObject(opts.bucket, key, file.tmpName, PublicRead);
    match store.send(client, request)
    case Done(objectUrl) =>
      var url := ResolveUrl(opts.bucketDomain, key, objectUrl);
      Step(holder', [request], Returned(Descriptor(file.name, key, file.size, file.mimeType, url, env.mimeOf(key))))
    case Fault(message) =>
      Step(holder', [request], Threw(Failure(UploadFailedPrefix, message)))
  }

  /** `modifyHandle($content, $file)`: the content is not looked at; the new
      file is put under its own key, and the record being modified plays no
      part in the key, the request or the answer. */
  function Modify(opts: Options, holder: Holder, content: Content, file: UploadFile, env: Env, store: Store): (step: Step<Descriptor>)
    ensures step.holder == InitConnection(holder, opts).0
    ensures step.calls == [PutFor(opts, env, file)]
    ensures var reply := store.send(InitConnection(holder, opts).1, PutFor(opts, env, file));
      && (step.outcome.Returned? <==> reply.Done?)
      && (step.outcome.Threw? ==> step.outcome.exception == Failure(UploadFailedPrefix, reply.message))
      && (step.outcome.Returned? ==>
            step.outcome.value.name == file.name && step.outcome.value.path == UploadKey(opts, env, file))
  {
    Upload(opts, holder, file, env, store)
  }

  /** `deleteHandle($content)` */
  function Delete(opts: Options, holder: Holder, content: Content, store: Store): (step: Step<bool>)
    ensures step.holder == InitConnection(holder, opts).0
    ensures step.calls == [DeleteObject(opts.bucket, content.attachment.path)]
    ensures var reply := store.send(InitConnection(holder, opts).1, step.calls[0]);
      && (step.outcome == Returned(true) <==> reply.Done?)
      && (step.outcome.Threw? <==> reply.Fault?)
      && (step.outcome.Threw? ==> step.outcome.exception == Failure(DeleteFailedPrefix, reply.message))
  {
    var (holder', client) := InitConnection(holder, opts);
    var request := DeleteObject(opts.bucket, content.attachment.path);
    match store.send(client, request)
    case Done(_) => Step(holder', [request], Returned(true))
    case Fault(message) => Step(holder', [request], Threw(Failure(DeleteFailedPrefix, message)))
  }

  /** `attachmentHandle($content)`: the client is only needed, and only
      created, when no domain is configured. */
  function AttachmentUrl(opts: Options, holder: Holder, content: Content, store: Store): (step: Step<String>)
    ensures step.outcome.Returned?
    ensures DomainSet(opts.bucketDomain) ==>
      && step.holder == holder
      && step.calls == []
      && step.outcome.value == JoinUrl(opts.bucketDomain, content.attachment.path)
    ensures !DomainSet(opts.bucketDomain) ==>
      var (holder', client) := InitConnection(holder, opts);
      && step.holder == holder'
      && step.calls == [GetObjectUrl(opts.bucket, content.attachment.path)]
      && step.outcome.value == store.objectUrl(client, opts.bucket, content.attachment.path)
  {
    var path := content.attachment.path;
    if DomainSet(opts.bucketDomain) then
      Step(holder, [], Returned(JoinUrl(opts.bucketDomain, path)))
    else
      var (holder', client) := InitConnection(holder, opts);
      Step(holder', [GetObjectUrl(opts.bucket, path)], Returned(store.objectUrl(client, opts.bucket, path)))
  }

  // ---------------------------------------------------------------------
  // Properties across handlers
  // ---------------------------------------------------------------------

  /** A successful upload stores under the formatted save path, keeps the
      name's extension at the end of the key, and with a domain set gives a
      URL made of the trimmed domain, one '/', and the key. */
  lemma UploadDescriptorShape(opts: Options, holder: Holder, file: UploadFile, env: Env, store: Store)
    ensures var step := Upload(opts, holder, file, env, store);
      step.outcome.Returned? ==>
      var d := step.outcome.value;
      && StartsWith(d.path, FormatSavePath(opts.savePath, env.today))
      && EndsWith(d.path, "." + Extension(file.name))
      && Extension(d.path) == Extension(file.name)
      && (DomainSet(opts.bucketDomain) ==>
            StartsWith(d.url, RTrim(opts.bucketDomain, '/'))
            && d.url[|RTrim(opts.bucketDomain, '/')|] == '/'
            && EndsWith(d.url, LTrim(d.path, '/')))
  {
    KeyKeepsExtension(FormatSavePath(opts.savePath, env.today), file.name, env.md5);
  }

  /** A failed put never yields a descriptor: the upload throws with the
      store's message at the end of its own. */
  lemma UploadFailurePropagates(opts: Options, holder: Holder, file: UploadFile, env: Env, store: Store)
    ensures var reply := store.send(InitConnection(holder, opts).1, PutFor(opts, env, file));
      var step := Upload(opts, holder, file, env, store);
      reply.Fault? ==> step.outcome.Threw? && EndsWith(step.outcome.exception.message, reply.message)
  {
  }

  /** Modify is an upload of the new file, whatever record is being
      modified: same key, same store call, same result or exception. */
  lemma ModifyIgnoresContent(opts: Options, holder: Holder, c1: Content, c2: Content, file: UploadFile, env: Env, store: Store)
    ensures Modify(opts, holder, c1, file, env, store) == Modify(opts, holder, c2, file, env, store)
    ensures Modify(opts, holder, c1, file, env, store) == Upload(opts, holder, file, env, store)
  {
  }

  /** With a domain set, looking up an uploaded attachment gives the URL the
      upload reported, whatever the connection holds by then. */
  lemma UploadThenLookupAgree(opts: Options, holder: Holder, later: Holder, file: UploadFile, env: Env, store: Store)
    requires DomainSet(opts.bucketDomain)
    ensures var step := Upload(opts, holder, file, env, store);
      step.outcome.Returned? ==>
      var d := step.outcome.value;
      AttachmentUrl(opts, later, Content(Attachment(d.path)), store).outcome.value == d.url
  {
  }

  /** Without a domain, the two URLs agree exactly when the store's lookup
      reports what its put reported; the lookup reuses the upload's client. */
  lemma UploadThenLookupWithoutDomain(opts: Options, holder: Holder, file: UploadFile, env: Env, store: Store)
    requires !DomainSet(opts.bucketDomain)
    ensures var step := Upload(opts, holder, file, env, store);
      var client := InitConnection(holder, opts).1;
      step.outcome.Returned? ==>
      var d := step.outcome.value;
      (AttachmentUrl(opts, step.holder, Content(Attachment(d.path)), store).outcome.value == d.url
       <==> store.objectUrl(client, opts.bucket, d.path) == store.send(client, PutFor(opts, env, file)).objectUrl)
  {
  }

  /** Deleting an uploaded attachment targets the very object the upload
      stored, in the same bucket. */
  lemma DeleteTargetsUploadedObject(opts: Options, holder: Holder, file: UploadFile, env: Env, store: Store)
    ensures var up := Upload(opts, holder, file, env, store);
      up.outcome.Returned? ==>
      var del := Delete(opts, up.holder, Content(Attachment(up.outcome.value.path)), store);
      del.calls[0].key == up.calls[0].key && del.calls[0].bucket == up.calls[0].bucket
  {
  }

  /** Once a handler has built the client, every later handler uses that
      client, even if the options change in between. */
  lemma HandlersShareClient(o1: Options, o2: Options, holder: Holder, file: UploadFile, content: Content, env: Env, store: Store)
    ensures var up := Upload(o1, holder, file, env, store);
      && up.holder.Connected?
      && Delete(o2, up.holder, content, store).holder == up.holder
      && AttachmentUrl(o2, up.holder, content, store).holder == up.holder
  {
  }

  /** Uploading a file named `stem.ext` in March 2025 with the default
      pattern and no bucket domain stores it as "2025/03/<md5>.ext" and
      reports the URL the store gave back; "cat.jpg" is stored as
      "2025/03/<md5>.jpg". */
  lemma March2025Upload(opts: Options, holder: Holder, file: UploadFile, env: Env, store: Store, stem: String, ext: String)
    requires opts.savePath == DefaultSavePath && opts.bucketDomain == []
    requires env.today == Date(2025, 3)
    requires file.name == stem + "." + ext && '.' !in ext && '/' !in ext
    ensures var step := Upload(opts, holder, file, env, store);
      var reply := store.send(InitConnection(holder, opts).1, PutFor(opts, env, file));
      reply.Done? ==>
        && step.outcome.Returned?
        && step.outcome.value.path == "2025/03/" + env.md5(file.name) + ("." + ext)
        && step.outcome.value.url == reply.objectUrl
  {
    March2025UploadKey(opts, env, file, stem, ext);
  }

  lemma March2025UploadKey(opts: Options, env: Env, file: UploadFile, stem: String, ext: String)
    requires opts.savePath == DefaultSavePath && env.today == Date(2025, 3)
    requires file.name == stem + "." + ext && '.' !in ext && '/' !in ext
    ensures UploadKey(opts, env, file) == "2025/03/" + env.md5(file.name) + ("." + ext)
  {
    March2025Key(opts.savePath, env.today, stem, ext, env.md5);
  }
}
