# FakeIO path redirection, in Dafny

A model of the redirection engine of the FakeIO native module (`fake_io.cpp`).
The module hooks two libc entry points in the game process, `openat` and
`newfstatat`. Before each call reaches the real function, the requested path
goes through `redirect_if_needed`. Any path that contains `"base.apk"` is
replaced by a fixed backup location,
`/data/data/com.bilibili.azurlane/base_orig.apk`. A null path, and any path
without that substring, is passed on unchanged. Every other argument is
passed through untouched, and the real function's result comes back as it is.

Files:

- `wrappers.dfy`: `Option`; `None` stands for a C null pointer.
- `cstring.dfy`: C strings as `string` (the characters before the NUL),
  `strstr` as `Strstr`, and the reference predicate `Occurs` it is proved against.
- `fake_io.dfy`: `REDIRECT_TARGET`, `redirect_if_needed`, `my_openat`,
  `my_newfstatat` and the properties of the engine.

The originals `orig_openat` and `orig_newfstatat` are function parameters of
the wrappers. In the C code they are captured once at load time and never
change afterwards.

The code redirects every path that contains `"base.apk"`. That includes paths
of entries inside the archive (`.../base.apk!/assets/x.png`) and sub-paths
(`.../base.apk/x`). There is no end-of-string rule. A design description of
the system says such sub-path accesses must never be redirected, and it also
describes a descriptor table and scrubbing of leaked paths. None of those
appear in `fake_io.cpp`. The model follows the code, and
`SubPathRedirected` and `SuffixCasesAllRedirected` state what the code does.

## Model

| member | source | states |
|---|---|---|
| `CString.Strstr` | app/src/main/cpp/fake_io.cpp:20 | `strstr`: the result is a position where the needle occurs, and no earlier position has one. It is null exactly when the needle occurs nowhere. |
| `FakeIO.RedirectIfNeeded` | app/src/main/cpp/fake_io.cpp:19-25 | A null path stays null. A path that contains `"base.apk"` anywhere becomes `REDIRECT_TARGET`. Every other path is returned unchanged. No third value is ever produced. |
| `FakeIO.RedirectTargetUnwatched` | app/src/main/cpp/fake_io.cpp:12 | `REDIRECT_TARGET` does not itself contain `"base.apk"`. |
| `FakeIO.RedirectResultUnwatched` | app/src/main/cpp/fake_io.cpp:19-25 | No path that `redirect_if_needed` hands on contains `"base.apk"`. |
| `FakeIO.RedirectAltersExactlyWatched` | app/src/main/cpp/fake_io.cpp:19-25 | The path is changed if and only if it is non-null and contains `"base.apk"`. |
| `FakeIO.RedirectIdempotent` | app/src/main/cpp/fake_io.cpp:12-25 | Redirecting an already redirected path changes nothing. |
| `FakeIO.SubPathRedirected` | app/src/main/cpp/fake_io.cpp:20-22 | Any path of the form prefix + `"base.apk"` + suffix is redirected, whatever the prefix and suffix. |
| `FakeIO.SuffixCasesAllRedirected` | app/src/main/cpp/fake_io.cpp:20-22 | `.../base.apk`, `.../base.apk/x` and `.../base.apk!/assets/x.png` are all redirected. |
| `FakeIO.SplitApkPassesThrough` | app/src/main/cpp/fake_io.cpp:24 | A package path without `"base.apk"` (`.../split_config.apk`) is returned unchanged. |
| `FakeIO.MyOpenat` | app/src/main/cpp/fake_io.cpp:28-30 | `orig_openat` gets `REDIRECT_TARGET` when the path contains `"base.apk"`, and the caller's path otherwise. `dirfd`, `flags` and `mode` are passed unchanged. Its result is returned unaltered, error values included. |
| `FakeIO.MyNewfstatat` | app/src/main/cpp/fake_io.cpp:33-35 | `orig_newfstatat` gets `REDIRECT_TARGET` when the path contains `"base.apk"`, and the caller's path otherwise. `dirfd`, `buf` and `flags` are passed unchanged. Its result is returned unaltered. |
| `FakeIO.ChannelsConsultSamePath` | app/src/main/cpp/fake_io.cpp:28-35 | For every path, `my_openat` and `my_newfstatat` pass their originals one and the same effective path. That path is either the caller's path or `REDIRECT_TARGET`, and it never contains `"base.apk"`. |

## Left out

- `init` (app/src/main/cpp/fake_io.cpp:38-50) is left out. It installs the hooks through the Dobby library (`DobbyHook`, `DobbySymbolResolver`), which is foreign runtime code. The originals it captures are parameters of `MyOpenat` and `MyNewfstatat` instead.
- `LOGI` logging is left out. It is an Android log side effect and does not affect the result.
- What `openat` and `fstatat` do to the file system is not modelled: which file gets opened, and what is written into the caller's `struct stat`. Each original is a pure function of its arguments, so the OS state it depends on is not modelled. The `struct stat*` is an opaque type parameter.
- Pointer identity is not modelled. A path is its character content, so returning "the same pointer" is modelled as returning an equal value.
- C strings are modelled by their characters before the terminating NUL, as `seq<char>`. Byte encoding is not modelled. The substring test compares characters one to one, as `strstr` compares bytes.
- `int` is a 32-bit signed newtype and `mode_t` a 32-bit unsigned newtype, as on 64-bit Android. The values are only passed through, so no arithmetic on them is modelled.
- `checker.cpp` and both `HookEntry.java` files are not part of this model. They are diagnostics and Xposed glue, and contain no redirection logic.
- `RedirectTarget` is declared as `PackageDataDir + "/base_orig.apk"`. The C source has a single literal. Both spell the same string.
