# AxS3Upload core, modelled in Dafny

AxS3Upload is a Typecho plugin that keeps attachments in an S3-compatible
object store instead of on the blog's disk. The host calls four handlers:

- `uploadHandle` stores a new file;
- `modifyHandle` replaces a file;
- `deleteHandle` removes a file;
- `attachmentHandle` gives a file's public URL.

The handlers share one lazily created S3 client.

This project models the string work those handlers do and the shape of
their results:

- **Save path** (`savepath.dfy`): `formatSavePath` puts the current year and
  month in place of `{year}` and `{month}`, as `str_replace` does, and keeps
  the rest of the pattern.
- **Extension** (`pathinfo.dfy`): `pathinfo($name, PATHINFO_EXTENSION)` is
  the text after the last '.' of the basename, or the empty string.
- **Object key** (`keys.dfy`): the formatted path, then the md5 of the
  original name, then '.', then the extension.
- **URL** (`url.dfy`): with a bucket domain, the URL is `rtrim(domain, '/')`,
  then '/', then `ltrim(key, '/')`. Otherwise it is the URL the store reports.
- **Connection** (`connection.dfy`): `initConnection` builds the client once
  and hands out the same client from then on. PHP keeps it in a static
  field; here it is a `Holder` value passed into and out of each handler.
- **Handlers** (`plugin.dfy`): each handler returns one `Step`. A `Step`
  records the holder afterwards, the store calls made, and either the
  returned value or the thrown `Typecho_Widget_Exception`.
- **String helpers** (`text.dfy`): `str_replace`, `rtrim`/`ltrim`, and
  "after the last separator".

The pieces that come from outside are parameters:

- the date (`Env.today`);
- the hash (`Env.md5`, any function from strings to strings);
- the host's mime lookup (`Env.mimeOf`);
- the object store, whose answers are a function from the client and request
  to `Done(objectUrl)` or `Fault(message)`, plus a function for `getObjectUrl`.

## Model

| member | source | states |
|---|---|---|
| SavePath.YearText | AxS3Upload/Plugin.php:90 | `date('Y')` is all digits, at least four of them, and reads back as the year. Years below 10000 give exactly four digits (zero-padded). Later years give their plain decimal digits, with no leading zero. |
| SavePath.MonthText | AxS3Upload/Plugin.php:91 | `date('m')` is exactly two digits and reads back as the month. |
| SavePath.YearTextInjective | AxS3Upload/Plugin.php:90 | Two different years never print the same. |
| Text.ReplaceAll | AxS3Upload/Plugin.php:94 | `str_replace` with one search string returns its subject unchanged when the search string does not occur in it. |
| Text.ReplaceAllConcat | AxS3Upload/Plugin.php:94 | Suppose the second piece does not start with a character that can continue a match. Then replacing in a concatenation is replacing in each piece. |
| Text.ReplaceAllSplit | AxS3Upload/Plugin.php:94 | Take a search string whose first character does not recur in it. Replacing in `a`, then the search string, then `b`, gives the replacement of `a`, then the replacement text, then the replacement of `b`. |
| Text.ReplaceAllRemoves | AxS3Upload/Plugin.php:94 | Suppose the replacement is non-empty and shares no character with the search string. Then no occurrence of the search string is left, including one that straddles a replaced spot. |
| Text.ReplaceAllCreatesNothing | AxS3Upload/Plugin.php:94 | Replacing with text that shares no character with another string `m` does not create an occurrence of `m`. So the `{month}` pass cannot bring `{year}` back. |
| SavePath.FormatSavePath | AxS3Upload/Plugin.php:88-97 | A formatted save path contains neither `{year}` nor `{month}`, whatever the pattern. |
| SavePath.FormatSplitsAtYear | AxS3Upload/Plugin.php:88-97 | Every `{year}` in the pattern becomes the year text: formatting `a`, `{year}`, `b` gives the formatted `a`, the year text, the formatted `b`. |
| SavePath.FormatSplitsAtMonth | AxS3Upload/Plugin.php:88-97 | Every `{month}` in the pattern becomes the two-digit month: formatting `a`, `{month}`, `b` gives the formatted `a`, the month text, the formatted `b`. |
| SavePath.FormatIdentity | AxS3Upload/Plugin.php:88-97 | Formatting returns the pattern unchanged exactly when the pattern contains neither placeholder (both directions). |
| SavePath.FormatDefaultPattern | AxS3Upload/Plugin.php:88-97 | The default pattern `{year}/{month}/` (offered at line 55) becomes the year text, '/', the two-digit month, '/'. |
| SavePath.FormatUnknownPlaceholder | AxS3Upload/Plugin.php:94 | An unrecognised placeholder such as `{day}/x/` passes through unchanged. |
| Text.AfterLast | AxS3Upload/Plugin.php:108 | The text after the last separator is a suffix of the input without the separator. When the separator occurs, the character just before that suffix is the separator. When it does not, the whole input is returned. |
| PathInfo.Basename | AxS3Upload/Plugin.php:108 | The basename that `pathinfo` works on contains no '/'. |
| PathInfo.BasenameIsLastComponent | AxS3Upload/Plugin.php:108 | Strip the trailing '/' from the path. The basename is what follows the last remaining '/': it has no '/', the stripped path ends with it, and a '/' precedes it unless it is the whole stripped path. |
| PathInfo.Extension | AxS3Upload/Plugin.php:108 | The extension contains no '.' and no '/'. If the basename has a '.', the basename ends with '.' and then the extension. Otherwise the extension is empty. |
| PathInfo.ExtensionOfSuffix | AxS3Upload/Plugin.php:108 | Take any stem, then '.', then a '.'- and '/'-free `ext`. Its extension is exactly `ext`. |
| PathInfo.ExtensionLastSegmentOnly | AxS3Upload/Plugin.php:108 | "archive.tar.gz" has extension "gz", not "tar.gz". |
| PathInfo.ExtensionIgnoresDirectories | AxS3Upload/Plugin.php:108 | Dots in directory components do not count: only the last component decides the extension. |
| PathInfo.NoDotNoExtension | AxS3Upload/Plugin.php:108 | A name without '.' has the empty extension. |
| Keys.ObjectKey | AxS3Upload/Plugin.php:108-112 | The key starts with the formatted path, holds md5(name) right after it, and ends with '.' and the name's extension. Its length is the sum of those parts. |
| Keys.KeyWithoutExtension | AxS3Upload/Plugin.php:108-112 | For a name whose extension is empty ("README", or "photo." with a final dot), the key ends with the hash and a bare '.'. |
| Keys.KeyKeepsExtension | AxS3Upload/Plugin.php:108-112 | The key has the same extension as the uploaded name. The mime lookup on the key at line 134 therefore sees the original extension. |
| Keys.KeyDeterminesParts | AxS3Upload/Plugin.php:110-112 | Under one save path, two names give the same key only if their hashes and their extensions are equal. |
| Keys.KeyOfNamedFile | AxS3Upload/Plugin.php:108-112 | A name made of a stem, '.', and a '.'- and '/'-free `ext` is stored under the path, its hash, '.', `ext`. |
| Keys.CatExtension | AxS3Upload/Plugin.php:108 | "cat.jpg" has extension "jpg". |
| Keys.March2025Key | AxS3Upload/Plugin.php:105-112 | Under the default pattern in March 2025, a name `stem.ext` is stored as "2025/03/", its hash, '.', `ext`. With "cat.jpg" that is "2025/03/" + md5("cat.jpg") + ".jpg". |
| Text.RTrim | AxS3Upload/Plugin.php:123 | `rtrim` returns a prefix of its input and removes only the trimmed character. What it returns does not end with that character. |
| Text.LTrim | AxS3Upload/Plugin.php:123 | `ltrim` returns a suffix of its input and removes only the trimmed character. What it returns does not start with that character. |
| Url.JoinUrl | AxS3Upload/Plugin.php:123 | The URL is the trimmed domain, then one '/', then the trimmed key, and nothing else. The characters on either side of that '/' are not '/'. |
| Url.JoinIgnoresSlashCounts | AxS3Upload/Plugin.php:123 | Extra '/' at the end of the domain or the start of the key do not change the URL: it always has exactly one separator. |
| Url.ResolveUrl | AxS3Upload/Plugin.php:122-123 | With a domain set, the URL is the join. Without one, it is the store's URL unmodified. |
| Url.DomainHidesStoreUrl | AxS3Upload/Plugin.php:123 | With a domain set, the store's URL plays no part. |
| Url.CdnExample | AxS3Upload/Plugin.php:173-174 | "https://cdn.example.com/" and "/2024/09/abc.png" join to "https://cdn.example.com/2024/09/abc.png". |
| Connection.NewClient | AxS3Upload/Plugin.php:73-83 | The client is built from the configured region, endpoint, access key and secret. It uses a path-style endpoint and no shared config files. |
| Connection.InitConnection | AxS3Upload/Plugin.php:69-86 | After the call a client is always held, and it is the one returned. A held client is returned with nothing changed. With none held, a fresh one is built from the current options. |
| Connection.SeriesSharesClient | AxS3Upload/Plugin.php:69-86 | In any series of calls, every call returns the client the first call returned, even if the options change in between. |
| Connection.InitIdempotent | AxS3Upload/Plugin.php:71-85 | A second call changes nothing and returns the same client. |
| Plugin.Failure | AxS3Upload/Plugin.php:137 | The exception message is the fixed prefix followed by the upstream message. |
| Plugin.FailureKeepsCause | AxS3Upload/Plugin.php:137 | The upstream message can be read back from the exception, so different causes give different exceptions. |
| Plugin.Upload | AxS3Upload/Plugin.php:100-140 | Upload makes one put of the computed key with the public-read ACL. It returns exactly when the store answers `Done`. On success the descriptor carries the name, size and declared type from the file, the key as path, the resolved URL and the key's mime type. On a fault it throws the upload failure built from the store's message. |
| Plugin.UploadDescriptorShape | AxS3Upload/Plugin.php:114-135 | A returned descriptor's path starts with the formatted save path and ends with '.' and the extension. With a domain set, its URL is the trimmed domain, '/', the trimmed key. |
| Plugin.UploadFailurePropagates | AxS3Upload/Plugin.php:136-137 | A faulting put never returns a descriptor: the upload throws, and its message ends with the store's message. |
| Plugin.Modify | AxS3Upload/Plugin.php:143-146 | Modify makes the same single put as an upload of the new file. It returns a descriptor with the new file's name and the computed key exactly when the store answers `Done`, and otherwise throws the upload failure. |
| Plugin.ModifyIgnoresContent | AxS3Upload/Plugin.php:143-146 | Modify is the upload of the new file, whatever record is passed as content. |
| Plugin.Delete | AxS3Upload/Plugin.php:149-164 | Delete issues exactly one delete, of the attachment's path in the configured bucket. It returns `true` exactly when the store answers `Done`, and on a fault throws the delete failure with the store's message. |
| Plugin.DeleteTargetsUploadedObject | AxS3Upload/Plugin.php:155-158 | Deleting an uploaded attachment targets the same bucket and key the upload put. |
| Plugin.AttachmentUrl | AxS3Upload/Plugin.php:167-183 | Within the model the lookup always returns (exceptions the SDK raises are left out, see below). With a domain set, it builds the join without creating a client or calling the store. Otherwise it initialises the connection and returns the store's `getObjectUrl`. |
| Plugin.UploadThenLookupAgree | AxS3Upload/Plugin.php:172-174 | With a domain set, the lookup of an uploaded key gives the URL the upload returned, whatever connection is held by then. |
| Plugin.UploadThenLookupWithoutDomain | AxS3Upload/Plugin.php:175-178 | Without a domain, the lookup reuses the upload's client. Its URL equals the upload's exactly when the store's `getObjectUrl` agrees with the URL its put reported. |
| Plugin.HandlersShareClient | AxS3Upload/Plugin.php:103 | After any upload a client is held. Later deletes and lookups keep that client, even under changed options. |
| Plugin.March2025UploadKey | AxS3Upload/Plugin.php:105-112 | Under the default pattern in March 2025, the key of an upload named `stem.ext` is "2025/03/", the name's hash, '.', `ext`. |
| Plugin.March2025Upload | AxS3Upload/Plugin.php:100-135 | Setup: default pattern, no domain, March 2025, a successful put. Uploading "cat.jpg" (or any `stem.ext`) returns path "2025/03/" + md5("cat.jpg") + ".jpg", and its URL is the one the store reported. |

## Left out

- The AWS SDK (`S3Client`, `putObject`, `deleteObject`, `getObjectUrl`, `AwsException`) is a network client. The store is a pair of functions supplied by the caller, and a client is the record of its constructor arguments.
- `md5` is a parameter of any type `String -> String`. No property here depends on what it computes.
- `date()` reads the clock, so the date is a parameter.
- `fopen` of the temporary file is not modelled: the put's body is the temporary path. A failing `fopen` is left out too.
- `Upload`, `Modify`, `Delete`, `AttachmentUrl`: exceptions other than `AwsException` are not modelled. These are exceptions from building the `S3Client` (line 73, reached through `initConnection` outside every `try` at lines 103, 152 and 177), from the SDK's own parameter checks, and from `getObjectUrl` (line 178, with no `try` around it). In PHP they leave the handler unwrapped. In the model the upload, modify and delete handlers only return or throw the wrapped failure, and the lookup always returns.
- `error_log` is output only, so it is left out.
- `Typecho_Common::mimeContentType` is a host lookup and is a parameter.
- The plugin wiring is host UI: `activate`, `deactivate`, the `config` form and its required-field rules, `personalConfig`, `getConfig`. The options are a record already validated by the form.
- `_t` is translation. It is taken as the identity that fills `%s` with the upstream message.
- The `return false;` after each `throw` (lines 138 and 162) can never run, so the model has no such outcome.
- `DomainSet`: PHP truthiness also treats the domain "0" as unset. The model reads "set" as "non-empty".
- `Basename`: only the POSIX form is modelled, with '/' as the sole separator. Windows '\\' separators and locale-dependent multibyte handling in `basename` are left out.
- Concurrent requests sharing the static connection are left out; calls are taken one at a time.
- Negative (BCE) years, which `date('Y')` prints with a '-', are left out: the year is a `nat`.
- `date('Y')` prints at least four digits, so years above 9999 give longer year text.
- The extension is kept exactly as written in the name, with no lowercasing.
