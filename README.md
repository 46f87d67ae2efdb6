# Preview pipeline of a file-browser backend, modelled in Dafny

This project models the image-preview handler of a Go file-browser server
(`http/preview.go`). The handler does the following, in order:

1. It checks that the user may download.
2. It parses the size token (`thumb` or `big`).
3. It resolves the file.
4. It sends every non-image type to "not implemented".
5. For an image, it picks one of three routes:
   - It serves the original bytes when the extension is unsupported or the format is GIF.
   - It answers 304 when the client's copy is fresh.
   - Otherwise it looks the preview up in a cache by a hex key. On a miss it renders a 1080×1080 "big" or 128×128 "thumb" preview, writes it, and hands it to the cache from a background goroutine.

Files and modules:

- `common.dfy` (`Common`): Go strings as byte sequences, `int64`, `Option`, `Result`, and the error values the handler returns.
- `gohex.dfy` (`GoHex`): what `fmt`'s `%x` prints.
  - For a string: two lower-case digits per byte.
  - For an `int64`: base 16 with a leading `-` when negative.
  - Each form has a decoder, and the decoder is proved to invert it.
- `preview_size.dfy` (`PreviewSizes`): the `PreviewSize` enumeration and its generated `String` and `Parse`.
- `cache_key.dfy` (`CacheKey`): `previewCacheKey`, defined as `Key`, and what can and cannot be recovered from a key. `Key` spells the size piece out as the hex of `thumb` or `big`. `KeyIsHexOfFields` proves that `Key` equals `%x` of the path, the time and the size's name, in that order.
- `preview.dfy` (`Preview`): the handler.
  - `PreviewHandler` models `previewHandler`.
  - `HandleImagePreview` and `LookupOrRender` model `handleImagePreview`.
  - `SizePolicy` and `Render` are the specification of `createPreview`.
  - `CreatePreview` is the imperative version. It builds the options slice by appending, appends each collaborator call to a trace as it makes it, and drops the store's error. It is proved equal to `Render`.

The collaborators are oracles: function-valued fields of `Env`. They are file resolution, format detection, the raw-file handler, the ETag check, the cache's `Load` and `Store`, opening the file, `Resize`, and the error-to-status mapping.

Every collaborator call and every body written to the response is recorded as an `Effect`. Statements such as "the cache is never touched" are therefore statements about the recorded trace. Status 0 (`StatusNotWritten`) is the handler's "the body is already written" return.

The cache key joins the three hex pieces with no separator, so it is not injective. `KeyCollision` proves that path `"a"` at time `0x120` and path `"a\x12"` at time 0 share a key. What does hold:

- the size class can be read from the last character of any key;
- for a fixed time, the key determines the path;
- for a fixed path, the key determines the time.

Without the download permission the handler returns 202 (Accepted), not 403. The model keeps 202, as the code has it.

## Model

| member | source | states |
|---|---|---|
| `PreviewSizes.SizeName` | http/preview.go:17-23 | The generated `String` gives one of the two enumerated names, `thumb` for thumb and `big` for big, so the two sizes print differently. |
| `PreviewSizes.ParsePreviewSize` | http/preview.go:17-23 | A token parses only if it is exactly the name of the size it yields. Any other token fails with an invalid-size error that carries the token. |
| `PreviewSizes.ParseSizeName` | http/preview.go:17-23 | Parsing a size's own name gives back that size, so parse and name are inverse. |
| `GoHex.HexBytes` | http/preview.go:151 | `%x` of a string prints exactly two characters per byte. |
| `GoHex.UnhexBytes` | http/preview.go:151 | Whatever the decoder accepts re-encodes under `%x` to exactly the text it read. |
| `GoHex.UnhexHexBytes` | http/preview.go:151 | Decoding the `%x` form of a string gives the string back. |
| `GoHex.HexBytesInjective` | http/preview.go:151 | Two strings with the same `%x` form are equal. |
| `GoHex.HexNat` | http/preview.go:151 | `%x` of a non-negative integer is a non-empty string of hex digits with no leading zero. It starts with `0` only for zero, and zero prints as `0`. |
| `GoHex.HexValueOfHexNat` | http/preview.go:151 | Reading the base-16 digits back gives the number. |
| `GoHex.HexInt` | http/preview.go:151 | `%x` of an `int64` is non-empty and starts with `-` exactly when the number is negative. |
| `GoHex.HexIntValueOfHexInt` | http/preview.go:151 | Parsing the signed `%x` form gives back the integer. |
| `GoHex.HexIntInjective` | http/preview.go:151 | Two integers with the same `%x` form are equal. |
| `CacheKey.KeyIsHexOfFields` | http/preview.go:150-152 | The key is `%x` of the path, then `%x` of the time, then `%x` of the size's name, with no separator. |
| `CacheKey.SizeHexIsHexOfName` | http/preview.go:151 | The size piece of the key, spelled out as `7468756d62` and `626967`, is exactly `%x` of the size's name. |
| `CacheKey.KeyPieces` | http/preview.go:150-152 | Key layout: path hex, then time hex, then size-name hex. Each piece decodes to its field once the path's length is known. |
| `CacheKey.KeyEndsWithSizeMark` | http/preview.go:150-152 | A key's last character is `2` for thumb and `7` for big. |
| `CacheKey.KeyDeterminesSize` | http/preview.go:150-152 | Equal keys have equal size classes, whatever the paths and times. The two sizes never share a key. |
| `CacheKey.KeyInjectiveForFixedTime` | http/preview.go:150-152 | At one modification time, equal keys mean equal paths and sizes. |
| `CacheKey.KeyInjectiveForFixedPath` | http/preview.go:150-152 | For one path, equal keys mean equal modification times and sizes. |
| `CacheKey.KeyCollision` | http/preview.go:150-152 | Two different (path, time) pairs share a key, because the pieces have no separator. |
| `Preview.SizePolicy` | http/preview.go:122-133 | A render is allowed exactly for big with the resize flag or thumb with the thumbnails flag. Big is 1080×1080, fit, medium quality, no forced format. Thumb is 128×128, fill, low quality, forced JPEG. |
| `Preview.Render` | http/preview.go:108-148 | The file is opened first, so an open error wins over the policy. Close is recorded iff the open succeeded, and it comes last. A disabled size fails as unsupported without resizing. An enabled size is resized once, to the policy's box with its options, and the resizer's error or bytes are the result. On success the trace is open, resize, store of those bytes under the file's key, close; on failure it is open, resize, close. Success only under the policy. Only successes are stored. Nothing is written. |
| `Preview.CreatePreview` | http/preview.go:108-148 | The step-by-step version returns the result and makes the calls, in order, that `Render` specifies. |
| `Preview.LookupOrRender` | http/preview.go:88-105 | The cache is looked up under the file's key before anything else. A load error maps to a status and renders nothing. A hit's whole trace is the lookup and one write of the cached bytes, with status 0 and no error, so it neither renders nor stores. A miss renders. |
| `Preview.MissRenderFailure` | http/preview.go:98-101 | On a miss with a failed render: the error maps to a status, and nothing is written or stored. |
| `Preview.MissWritesWhatItStores` | http/preview.go:88-145 | On a successful miss, the response ends with the rendered bytes. Those same bytes are stored under the key the lookup used. |
| `Preview.MissRendersEnabledSize` | http/preview.go:88-145 | On a miss, an enabled size whose file opens and resizes gives status 0 and the trace: lookup, open, resize to the policy's box, store of the resizer's bytes under the lookup's key, close, write of those bytes. |
| `Preview.HitAfterStore` | http/preview.go:88-96 | A later request, against a cache holding what the miss stored, is a hit. Its whole trace is the lookup and one write of the bytes the miss wrote, with the same status, and it neither renders nor stores. |
| `Preview.HandleImagePreview` | http/preview.go:71-106 | Format detection is the first call. Unsupported or GIF: the raw handler's answer, and no freshness check, cache or render. Another detection error maps to a status. Otherwise the ETag check comes next: fresh gives 304 with no cache or render; stale continues to lookup-or-render. |
| `Preview.PreviewHandler` | http/preview.go:36-69 | No permission: 202, no error, nothing touched. A bad size token: 400 with the parse error, before resolution. Past both gates, the first call resolves `"/" + path`. A resolution error maps to a status. A non-image is 501 and never enters the image pipeline. An image goes on to the image pipeline. |
| `Preview.StoreErrorIgnored` | http/preview.go:140-145 | Whatever the cache's `Store` returns, the handler's outcome is the same. |
| `Preview.DisabledSizeIsUnsupported` | http/preview.go:122-133 | On a miss, a size whose flag is off fails with the unsupported-format error. The whole trace is detection, freshness check, lookup, open and close: never served raw, never resized, never stored. |

## Left out

- The background goroutine's concurrency is not modelled. The `Store` call is recorded in the trace where the goroutine is started; no claim is made about its timing relative to the response write or to other requests. So the lack of single-flight coalescing across concurrent requests is not modelled either.
- `FileCache.Delete` is part of the interface but the handler never calls it.
- Collaborators whose code is not part of this model are oracles:
  - `withUser`: reduced to the download-permission boolean.
  - `files.NewFileInfo`, `setContentDisposition`, `rawFileHandler` and `errToStatus`.
  - `checkEtag`: a boolean on (mod time, size), with the request's validators built in.
  - `ImgService.FormatFromExtension` and `ImgService.Resize`. The resizer is an oracle on (path, width, height, options) instead of on an open reader.
- The generated enum file is not part of this model. `Parse` is assumed to match the names `thumb` and `big` exactly, and `String` to return them. `%x` on the size then prints the hex of that name.
- Only the formats and options the handler names are modelled: JPEG, GIF, fit and fill, low and medium quality. Every other format is `Other`.
- Response-header writes, `mux.Vars` routing, contexts and their lifetimes, and `fmt.Printf` logging are not modelled.
- The error value returned by `fd.Close` is not modelled; Go ignores it.
- `storage/storage.go` (a struct of handles), `auth/auth.go` (an interface) and `main.go` (process start-up) are not modelled.
