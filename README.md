# libraw.py — a verified model of the binding's own logic

libraw.py is a ctypes binding over the LibRaw C library. It lays out the
library's structures and forwards calls into the shared object. This project
models the few parts of the binding whose behaviour the binding itself decides,
and proves what they promise:

- **Version decoding** (module `Versions`). `versionNumber()` splits the
  packed integer from `libraw_versionNumber()` into major, minor and patch
  bytes. The constructor warns, but still goes on, when the minor version is
  not 20.
- **The call forwarder** (module `Forwarder`). `LibRaw.__getattr__` resolves
  `"libraw_" + name` on the first lookup and caches the handler on the instance
  with `setattr`. The handler:
  - converts text arguments to UTF-8;
  - calls the native function with the context `self._proc` first;
  - raises `strerror(e)` for a non-zero return.

  The pure functions `GetAttr` and `Invoke` specify one lookup and one call.
  `class LibRaw` performs them on its own `cache` field and is proved against
  them. Ghost logs of the symbol lookups and native calls make "resolved at
  most once" and "called with the context first" statable.
- **UTF-8** (module `Utf8`). This is the encoding `str.encode("utf-8")`
  applies and the strict decoding `bytes.decode("utf-8")` applies, per RFC 3629,
  for text made of Unicode scalar values (no lone surrogates).
  The model proves a round trip in both directions, that encoding is
  injective, and that a rejected byte string encodes no text.
- **The native library** (module `Native`). It is an oracle: a table of
  exported symbols, each a function from its argument list to the `int` it
  returns, plus the error-text, version and `libraw_init` entry points.
- **Zero-copy views** (modules `Views` and `Mirrors`). `_array_from_memory`
  asks for `prod(shape) * itemsize` bytes. It cuts them into items and
  reshapes them in C order. The structure properties (`calibration`,
  `colormatrix`, `forwardmatrix`, `curve`, `cblack`, `cam_mul`, `pre_mul`,
  `cmatrix`, `rgb_cam`, `cam_xyz`, `image`) are views with fixed shapes. The
  model states which item of the native field each element reads.
  `colormatrix` is the transpose `.T` of a (4, 3) view.
- **The command line** (module `Cli`). It covers the usage exit, the output
  path built from `os.path.dirname`, `os.path.basename` and
  `rsplit('.', 1)[0]`, and the four forwarded operations. Each operation may
  raise and end the run.

Integer arithmetic helpers live in module `Arith`.

## Model

| member | source | states |
|---|---|---|
| Versions.VersionNumber | libraw.py:903-905 | the three decoded components are bytes and recompose to the low 24 bits of `v`: `major*65536 + minor*256 + patch == v mod 2^24`, matching Python's `>>` and `& 0xff` for negative `v` as well |
| Versions.VersionRoundTrip | libraw.py:903-905 | decoding `major*65536 + minor*256 + patch` gives back `(major, minor, patch)` for every triple of bytes |
| Versions.HighBitsIgnored | libraw.py:903-905 | bits above the third byte never change the decoded version |
| Versions.CompatibleReleases | libraw.py:909-910 | the constructor's check passes for a packed version exactly when its minor component is 20 |
| Utf8.Encode | libraw.py:921 | a text of `n` characters encodes to between `n` and `4n` bytes |
| Utf8.Decode | libraw.py:898 | a byte string the strict decoder accepts holds between one and four bytes per decoded character |
| Utf8.DecodeEncode | libraw.py:921 | strictly decoding the UTF-8 encoding of any text gives back that text |
| Utf8.EncodeDecode | libraw.py:898 | any byte string the strict decoder accepts is exactly the encoding of the text it returns |
| Utf8.EncodeInjective | libraw.py:921 | two different texts never reach the library as the same bytes |
| Utf8.NotAnEncoding | libraw.py:898 | a byte string the strict decoder rejects is the encoding of no text |
| Utf8.EncodeAscii | libraw.py:921 | ASCII text is passed byte for byte |
| Native.Strerror | libraw.py:897-898 | `strerror(e)` gives the text whose UTF-8 encoding is the library's error text, or `UnicodeDecodeError` when no text encodes to it |
| Native.Version | libraw.py:900-901 | `version()` gives the text whose UTF-8 encoding is the library's version string, or `UnicodeDecodeError` when there is none |
| Native.EncodeArgs | libraw.py:921 | the argument list keeps its length and order; each text becomes the bytes of its UTF-8 encoding and every other argument is unchanged |
| Native.EncodedArgsAreBytes | libraw.py:920-921 | no text argument reaches the C side, and every converted text decodes back to the original |
| Native.Check | libraw.py:923-925 | a return of 0 succeeds; any other return raises, with a message whose UTF-8 encoding is the library's text for that code, or raises `UnicodeDecodeError`; that text is the message whenever it decodes, and `UnicodeDecodeError` is raised exactly when it does not |
| Forwarder.Symbol | libraw.py:917 | the symbol looked up for `name` is `"libraw_"` followed by `name` |
| Forwarder.SymbolInjective | libraw.py:917 | distinct operation names never share a symbol |
| Forwarder.Bind | libraw.py:917-925 | the handler built for `name` wraps exactly the library's function for `"libraw_" + name` |
| Forwarder.GetAttr | libraw.py:916-928 | a lookup succeeds exactly when the symbol exists; a cached name returns its handler and changes nothing; an uncached name is looked up once more and, if found, cached; a missing symbol raises `AttributeError` and caches nothing |
| Forwarder.GetAttrCoherent | libraw.py:916-928 | a lookup preserves the instance invariant: every cached handler is the library's function, was resolved exactly once, and every resolved name is cached |
| Forwarder.RunCache | libraw.py:927 | after any sequence of lookups the cached names are the earlier ones plus exactly the looked-up names whose symbols exist |
| Forwarder.RunLookups | libraw.py:917-927 | the library is asked for the symbol of `n` once in all if it exists, and once per lookup if it does not |
| Forwarder.ResolvedAtMostOnce | libraw.py:916-928 | on a new instance, each operation whose symbol exists is resolved exactly once if it is ever used, and never otherwise |
| Forwarder.Invoke | libraw.py:919-925 | the native call gets the context first and then the converted arguments in order; it succeeds exactly when the native return is 0; a non-zero return `e` raises an exception carrying the decoded `strerror(e)` when that text decodes, and `UnicodeDecodeError` when it does not |
| Forwarder.LibRaw.constructor | libraw.py:912-914 | a new instance keeps its non-NULL context and has nothing cached |
| Forwarder.LibRaw.New | libraw.py:908-914 | warns exactly when the decoded minor version is not 20, and goes on either way; a NULL context raises, otherwise a new valid instance with an empty cache |
| Forwarder.LibRaw.Attribute | libraw.py:916-928 | `self.<name>` changes the cache and the lookup log exactly as `GetAttr` says, and keeps the instance valid |
| Forwarder.LibRaw.Call | libraw.py:919-925 | calling a handler records exactly the native call `Invoke` describes and returns its outcome |
| Forwarder.LibRaw.Forward | libraw.py:916-928 | `self.<name>(*args)`: a failed lookup raises and calls nothing; otherwise exactly one native call as `Invoke` describes |
| Views.ByteLength | libraw.py:894 | the size asked for is a whole number of items, and is zero exactly when some dimension is zero |
| Views.ProdZero | libraw.py:894 | `np.prod(shape)` is zero exactly when one of the dimensions is |
| Views.FromBuffer | libraw.py:895 | `np.frombuffer` cuts the buffer into `len / itemsize` items, and item `k` is bytes `k*size .. (k+1)*size` |
| Views.CStridesAreSuffixProducts | libraw.py:895 | the C-order stride of each axis is the product of the later dimensions |
| Views.COffsetBound | libraw.py:895 | every in-bounds index lands inside the `prod(shape)` items |
| Views.UnravelSound | libraw.py:895 | every flat position below `prod(shape)` is reached by an in-bounds index |
| Views.UnravelDot | libraw.py:895 | the in-bounds index is recovered from its flat position |
| Views.COffsetInjective | libraw.py:895 | two in-bounds indices never share a flat position |
| Views.ArrayFromMemory | libraw.py:893-895 | the view has the requested shape and type and `prod(shape)` items; element `idx` is the item at the row-major position of `idx` in the memory region |
| Views.ElementAt | libraw.py:893-895 | the element at an in-bounds index is the memory item at its row-major position |
| Views.MatrixOffset | libraw.py:895 | in a (rows, cols) array, `[i, j]` is at flat position `i*cols + j` |
| Views.CubeOffset | libraw.py:895 | in a (d0, d1, d2) array, `[i, j, k]` is at flat position `(i*d1 + j)*d2 + k` |
| Views.DotReverse | libraw.py:159 | reversing both the index and the strides reaches the same flat position |
| Views.Transpose | libraw.py:159 | `.T` keeps the items and reverses shape and strides, and `b[reverse(idx)] == a[idx]` for every in-bounds `idx` |
| Mirrors.MatrixView | libraw.py:893-895 | a (rows, cols) view of a field reads item `i*cols + j` at `[i, j]` |
| Mirrors.Calibration | libraw.py:153-155 | `calibration` is a 4×4 float view of the 64-byte field, row by row |
| Mirrors.TransposedMatrix | libraw.py:158-159 | transposing a (rows, cols) view gives shape (cols, rows) with item `i*cols + j` at `[j, i]` |
| Mirrors.Colormatrix | libraw.py:157-159 | `colormatrix` has shape (3, 4), and `colormatrix[j][i]` is float `3*i + j` of the field |
| Mirrors.Matrix3x4 | libraw.py:558-568 | `cmatrix`, `rgb_cam` and `cam_xyz` here, and `forwardmatrix` at libraw.py:163, are 3×4 float views, row by row |
| Mirrors.Vector | libraw.py:893-895 | a one-dimensional view reads item `k` of the field at `[k]` |
| Mirrors.Curve | libraw.py:542-544 | `curve` is the 65536 16-bit entries of the field |
| Mirrors.Cblack | libraw.py:546-548 | `cblack` is the 4102 32-bit entries of the field |
| Mirrors.Multipliers | libraw.py:550-556 | `cam_mul` and `pre_mul` are the four floats of their fields |
| Mirrors.CubeView | libraw.py:893-895 | a (d0, d1, d2) view reads item `(i*d1 + j)*d2 + k` at `[i, j, k]` |
| Mirrors.Cube | libraw.py:893-895 | the three-dimensional view of a region, with the element-to-item map of `CubeView` |
| Mirrors.Image | libraw.py:861-864 | `image` has shape `(iheight, iwidth, 4)` of 16-bit samples, spans `iheight*iwidth*4*2` bytes, and reads sample `(i*iwidth + j)*4 + c` at `[i, j, c]` |
| Cli.RFind | libraw.py:941 | `rfind` gives -1 or a position of the character, with no occurrence after it |
| Cli.BaseName | libraw.py:940 | `os.path.basename` is the slash-free tail of the path, preceded by a slash unless it is the whole path |
| Cli.DirName | libraw.py:939 | `os.path.dirname` is a prefix of the path that ends before the base name, with only slashes between them; it is empty exactly when the path has no slash; when it is all slashes it reaches the base name; otherwise it does not end in a slash |
| Cli.Stem | libraw.py:941 | `rsplit('.', 1)[0]` is the whole name when it has no dot; otherwise the prefix before the last dot |
| Cli.Join | libraw.py:939-957 | `os.path.join`, used only by the corrected output path of the Findings row (line 957 does not call it): an absolute second part replaces the first; otherwise the parts are concatenated, with a slash between them unless the first is empty or already ends in one |
| Cli.OutputNameHasNoSlash | libraw.py:940-941 | the output file name (stem plus `.ppm`) has no slash |
| Cli.OutputPathAsWritten | libraw.py:939-957 | the path `pname + "/" + fname + ".ppm"` always has the file name stem plus `.ppm`; its directory is the input's when that has a part other than slashes, and the input's directory plus a slash otherwise (`/` for a bare file name) |
| Cli.SlashConcat | libraw.py:957 | concatenating a directory name, a slash and a slash-free name gives a path with that base name and with that directory, or that directory plus a slash when it is empty or only slashes |
| Cli.OutputBesideInput | libraw.py:939-941 | for the corrected path of the Findings row (`os.path.join(pname, fname + ".ppm")`, not line 957 as written): the output is in the input's directory and is named after the input's stem with `.ppm` |
| Cli.AsWrittenAgrees | libraw.py:939-957 | when the input's directory part is neither empty nor made only of slashes, the path as written equals the corrected path |
| Cli.BareNameOutputs | libraw.py:939-957 | for an input without a slash, the path as written is `"/" + stem + ".ppm"` in the root directory, while the corrected path is `stem + ".ppm"` |
| Cli.RelativeInputWritesToRoot | libraw.py:939-957 | for the input `photo.raw`, the path as written is `/photo.ppm`, in another directory than the input; the corrected path is `photo.ppm` |
| Cli.ScriptsAgree | libraw.py:939-957 | when the input's directory part is neither empty nor only slashes, the script as written makes the same native calls, with the same outcome, as the corrected one |
| Cli.ExitStatus | libraw.py:930-933 | the status is 0 exactly when the output was written |
| Cli.Script | libraw.py:942-957 | the script is four operations; the input path is the only argument of the first, the output path the only argument of the last, and the middle two take none |
| Cli.Perform | libraw.py:942-957 | running operations one after another never makes more native calls than there are operations, and keeps the cache sound |
| Cli.PerformTrace | libraw.py:942-957 | call `i` of a run is operation `i`'s call; every call but the last succeeded; the run succeeds exactly when all operations ran and succeeded; otherwise the next symbol was missing or the last call returned an error |
| Cli.AllSucceed | libraw.py:942-957 | when every operation's function exists and returns 0, the run succeeds and makes exactly one call per operation, in order |
| Cli.ScriptCalls | libraw.py:942-957 | the four lines make the calls `libraw_open_file(proc, input)`, `libraw_unpack(proc)`, `libraw_dcraw_process(proc)` and `libraw_dcraw_ppm_tiff_writer(proc, output)`, with paths as UTF-8 bytes |
| Cli.EndToEnd | libraw.py:942-957 | when the library exports the four operations and each returns 0, the script makes exactly those four native calls and succeeds |
| Cli.Step | libraw.py:942-957 | forwarding one line of the script advances the run by exactly one step of `Perform`, or ends it with the outcome `Perform` gives |
| Cli.Process | libraw.py:942-957 | on a new instance, the four lines leave exactly the attributes, native calls and outcome of `Perform` on the script |
| Cli.RunCli | libraw.py:930-957 | fewer than two arguments give the usage exit and no calls; a NULL context raises before any call; otherwise the native calls are those of the script on the input and the output path as libraw.py writes it (`pname + "/" + fname + ".ppm"`), and the run writes that path or raises the first error |

## Left out

- Locating and loading the shared object (libraw.py:23-41) is filesystem I/O and a foreign loader. The library is a parameter of the model.
- The `Structure` layouts (`_fields_`) are ABI data that must match the C headers. Each mirror takes the bytes of its field, of the length the field declares. The model does not compare a field's declared row and column split with the shape the property views it in. For example, `_cam_xyz` is declared as four rows of three floats but viewed as (3, 4).
- The memory aliasing of `PyMemoryView_FromMemory` and `np.frombuffer` (libraw.py:885-895) is foreign pointer code. A view is modelled as a copy of the bytes, so writes through a view and later native changes are not captured.
- Views.ArrayFromMemory requires a region at least `prod(shape) * itemsize` bytes long. The source does not check this; it trusts the native pointer.
- Mirrors.Image: same requirement, for the pixel buffer of `iheight * iwidth * 4 * 2` bytes.
- Views.ArrayFromMemory, Mirrors.Image: the model promises the full view for every size, but the source builds none from 2^31 bytes up. `PyMemoryView_FromMemory` (libraw.py:887) has no `argtypes`, so ctypes passes `size` as a C `int`: its low 32 bits, read as signed. For example, `iheight = iwidth = 32768` asks for 2^33 bytes, which reaches C as 0; `np.frombuffer` then yields no items and `reshape((32768, 32768, 4))` raises `ValueError`. A size that reaches C as negative is not modelled either. The C library's own dimension limits are not part of this model, so the contracts are not restricted to sizes below 2^31.
- Items are modelled as their raw bytes. The float and integer values they stand for are not interpreted.
- The native entry points are oracles: each returns an `int` that depends only on its arguments. State that the C library keeps between calls (an opened file, unpacked data) is not modelled.
- The `restype` assignments (libraw.py:879-882) and the messages printed to stdout (libraw.py:910, 932, 943, 946, 955) are left out. The warning is modelled as a boolean result of `LibRaw.New`.
- Forwarder.LibRaw.New: `libraw_init`'s argument is passed as the Python `int` it is. No `argtypes` are declared, so ctypes converts it to a C `int`; that conversion is not modelled.
- Native.EncodeArgs, Forwarder.Invoke, Cli.RunCli: two argument-conversion errors raised before any native call are not modelled. `str.encode("utf-8")` raises `UnicodeEncodeError` for text holding lone surrogates, such as a file name `sys.argv` decoded with `surrogateescape`; a Dafny `char` is a Unicode scalar value, so such text cannot be stated. Without `argtypes`, ctypes passes an `int` argument as a C `int`, cut to its low 32 bits, and raises `ArgumentError` only when the value does not fit a C `long`, or for an argument it cannot convert, such as a `float`. `Arg` holds only text, bytes, integers and pointers, and an integer reaches the native oracle as the Python value, neither truncated nor checked.
- Forwarder.GetAttr: `__getattr__` runs only for names that ordinary attribute lookup misses. Instance fields such as `_proc` and `imgdata` never reach it. The model covers the operation names the script uses.
- Cli.RunCli: a ghost out-parameter records the native calls. Python has no such record. `sys.exit(1)` and an uncaught exception are modelled as the `Usage` and `Raised` outcomes, with `ExitStatus` giving the status.
- setup.py is packaging metadata with no logic.

## Findings

| source | as written | input that shows it | evidently intended | confidence | as-written member | corrected member |
|---|---|---|---|---|---|---|
| libraw.py:939-957 | the output path is `pname + "/" + fname + ".ppm"`, where `pname = os.path.dirname(sys.argv[1])` | `photo.raw`: `pname` is empty, so the output is `/photo.ppm`, in the filesystem root rather than the working directory | write the `.ppm` beside the input, as `os.path.join(pname, fname + ".ppm")` does (`photo.ppm`) | not executed | Cli.RelativeInputWritesToRoot | Cli.OutputBesideInput |
