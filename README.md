# Amatsukaze front-end helpers, modelled in Dafny

Amatsukaze is an automated MPEG2-TS transcoder. This project models two small parts of
its front ends and proves properties of them:

- the path and option helpers of the command-line tool (`Amatsukaze/AmatsukazeCLI.hpp`):
  fetching an option's parameter, normalizing a path, finding where a file name's
  extension starts, taking a path's directory, removing a container extension, and
  mapping encoder and decoder names to their kinds, plus the places where the
  argument parser composes the path helpers (`-o`, `-w`, `--drcs`, with `-i` being
  normalization alone);
- two pieces of the GUI server (`AmatsukazeGUI/Server/Misc.cs`): the GUI's own command
  line (`GUIOPtion`: launch type and server port) and the console line splitter
  `ConsoleTextBase`, which turns a child process's console bytes into "add a line" and
  "replace the last line" notifications, the latter after a line ended by `\r`
  (progress-bar output).

Files:

- `wrappers.dfy` — `Option` and `Result`.
- `cli_paths.dfy` — module `CliPaths`: `rfind`, `pathNormalize` (a method over an array
  copy, as the source edits its copy in place), `pathGetExtensionSplitPos`,
  `pathGetDirectory`, `pathRemoveExtension` (a method looping over the extension table
  with an early return), and the parser's compositions.
- `cli_options.dfy` — module `CliOptions`: `getParam` with its format error,
  `encoderFtomString`, `decoderFromString`, with the −1 sentinel as an explicit
  `…Invalid` kind.
- `console_text.dfy` — module `ConsoleText`: the splitter as a class with the source's
  `rawtext` and `isCR` fields and an `emitted` field that records the handler calls;
  the method bodies are proved against a function `Feed` (the loop as a fold over
  bytes), and `Feed` is proved equal to an independent line-by-line description
  `Lines`, to conserve every text byte, and to be insensitive to how the bytes are cut
  into calls.
- `gui_option.dfy` — module `GuiOption`: the scanning loop as a function `ScanFrom`, the
  constructor as a class constructor proved against it.

Characters are Dafny `char`s (the source's `tchar` is `wchar_t` on its main platform),
bytes are a `byte` newtype, and C#'s `int` is an `int32` newtype. A position in a path
is an index into its sequence of characters; the source's `size_t` positions count
`wchar_t` code units, which are UTF-16 on Windows, so the two differ by one for every
character outside the Basic Multilingual Plane that comes before the position.

## Model

| member | source | states |
|---|---|---|
| `CliPaths.RFind` | Amatsukaze/AmatsukazeCLI.hpp:160-164 | the position found holds the character and no later position does; npos exactly when the character is absent |
| `CliPaths.NormalizedPath` | Amatsukaze/AmatsukazeCLI.hpp:146-156 | the result has no backslash; every kept position holds the input's character with `\` turned into `/`; the empty path is unchanged; the result is one shorter exactly when the converted path ends in `/`, otherwise the same length |
| `CliPaths.PathNormalize` | Amatsukaze/AmatsukazeCLI.hpp:146-156 | the in-place replacement on the copy followed by the single `pop_back` yields `NormalizedPath(path)` |
| `CliPaths.NormalizedPathNotIdempotent` | Amatsukaze/AmatsukazeCLI.hpp:151-153 | only one trailing slash goes: `a//` becomes `a/`, and normalizing again gives `a` |
| `CliPaths.NormalizedPathFixesNormalForm` | Amatsukaze/AmatsukazeCLI.hpp:146-156 | a path with no backslash and no trailing slash is returned unchanged |
| `CliPaths.ExtensionSplitPos` | Amatsukaze/AmatsukazeCLI.hpp:158-169 | the result is at most the length; below the length it is a dot with no dot after it and no slash at or after it; it equals the length exactly when every dot has a slash after it (no dot in the last component) |
| `CliPaths.PathGetDirectory` | Amatsukaze/AmatsukazeCLI.hpp:171-177 | the result is a prefix of the path; empty when there is no slash; otherwise it ends just before the last slash |
| `CliPaths.EqualsIgnoreCase` | Amatsukaze/AmatsukazeCLI.hpp:185 | `_wcsicmp(a, b) == 0` holds exactly when the two strings are equal after folding letters to lower case; equal strings always compare equal |
| `CliPaths.StripFirstExtension` | Amatsukaze/AmatsukazeCLI.hpp:180-190 | trying the extensions in order yields a prefix of the path |
| `CliPaths.PathRemoveExtension` | Amatsukaze/AmatsukazeCLI.hpp:179-191 | the loop over `.mp4`, `.mkv`, `.m2ts`, `.ts` with its early return yields `StripFirstExtension(path, ContainerExtensions)` |
| `CliPaths.StripFirstExtensionIsFirstMatch` | Amatsukaze/AmatsukazeCLI.hpp:182-190 | when the first matching extension is number k, exactly that extension is cut off; with no match the path comes back unchanged |
| `CliPaths.StripFirstExtensionShape` | Amatsukaze/AmatsukazeCLI.hpp:179-191 | the result is a prefix of the path, equal to it exactly when no extension matches, and otherwise shorter by the length of a matching extension |
| `CliPaths.RemoveExtensionPrefersM2ts` | Amatsukaze/AmatsukazeCLI.hpp:180-187 | `x.m2ts` becomes `x`, because `.m2ts` is tried before `.ts` |
| `CliPaths.RemoveExtensionIgnoresCase` | Amatsukaze/AmatsukazeCLI.hpp:185-186 | `Show.MP4` becomes `Show`: the comparison ignores case |
| `CliPaths.RemoveExtensionStripsOnce` | Amatsukaze/AmatsukazeCLI.hpp:184-187 | `a.ts.mkv` becomes `a.ts`: one extension is removed |
| `CliPaths.RemoveExtensionKeepsBareExtension` | Amatsukaze/AmatsukazeCLI.hpp:184 | `.ts` is kept: the path must be strictly longer than the extension |
| `CliPaths.OutputVideoPath` | Amatsukaze/AmatsukazeCLI.hpp:255-257 | the `-o` path has no backslash and is a prefix of the normalized argument; it is the normalized argument itself when no container extension matches, and otherwise that argument with exactly the first matching extension cut off |
| `CliPaths.WorkDirectory` | Amatsukaze/AmatsukazeCLI.hpp:265-270 | the `-w` directory is never empty and has no backslash; it is the normalized argument when that is non-empty, and `./` when it is empty |
| `CliPaths.DrcsOutputDirectory` | Amatsukaze/AmatsukazeCLI.hpp:407-414 | the `--drcs` output directory is never empty and has no backslash; it is `.` when the normalized argument has no directory, and otherwise that directory, which ends just before the argument's last `/` |
| `CliOptions.GetParam` | Amatsukaze/AmatsukazeCLI.hpp:138-144 | fails with a format error naming `argv[ikey]` exactly when `ikey + 1 >= argc`; otherwise returns `argv[ikey + 1]` |
| `CliOptions.EncoderFromString` | Amatsukaze/AmatsukazeCLI.hpp:193-207 | a kind it returns is one whose spellings include the string; the −1 sentinel is returned only for a string that is no kind's spelling |
| `CliOptions.DecoderFromString` | Amatsukaze/AmatsukazeCLI.hpp:209-220 | a kind it returns is one whose spellings include the string; the −1 sentinel is returned only for a string that is no kind's spelling |
| `CliOptions.EncoderFromStringCharacterized` | Amatsukaze/AmatsukazeCLI.hpp:193-207 | a string maps to an encoder kind exactly when it is one of that kind's spellings (`x264`; `x265`; `qsv`/`QSVEnc`; `nvenc`/`NVEnc`), and to the −1 sentinel exactly when it is no kind's spelling |
| `CliOptions.DecoderFromStringCharacterized` | Amatsukaze/AmatsukazeCLI.hpp:209-220 | a string maps to a decoder kind exactly when it is one of that kind's spellings (`default`; `qsv`/`QSV`; `cuvid`/`CUVID`/`nvdec`/`NVDec`), and to the −1 sentinel exactly when it is no kind's spelling |
| `CliOptions.HelpNamesRoundTrip` | Amatsukaze/AmatsukazeCLI.hpp:66-88 | every name the help text lists (x264, x265, QSVEnc, NVEnc; default, QSV, CUVID) maps back to its own kind |
| `CliOptions.NamesAreCaseSensitive` | Amatsukaze/AmatsukazeCLI.hpp:193-220 | spellings outside the lists, such as `X264` or `Default`, give the −1 sentinel |
| `GuiOption.LaunchTypeFromName` | AmatsukazeGUI/Server/Misc.cs:36-48 | `standalone` gives Standalone, `server` gives Server, and exactly every other value gives Client |
| `GuiOption.ScanFrom` | AmatsukazeGUI/Server/Misc.cs:26-50 | the loop from index i fails only if some argument from i on is `-p`/`--port` or `-l`/`--launch` |
| `GuiOption.ParseOptions` | AmatsukazeGUI/Server/Misc.cs:21-51 | with only the program name the result is the defaults, and a failure needs a flag after `args[0]` |
| `GuiOption.ScanSeesOnlyRest` | AmatsukazeGUI/Server/Misc.cs:26-50 | the loop from index i depends only on the arguments from i on |
| `GuiOption.ProgramNameIgnored` | AmatsukazeGUI/Server/Misc.cs:26 | the scan starts at index 1, so `args[0]` never changes the outcome |
| `GuiOption.NoFlagsKeepSettings` | AmatsukazeGUI/Server/Misc.cs:26-50 | arguments that are neither `-p`/`--port` nor `-l`/`--launch` leave both fields unchanged |
| `GuiOption.DefaultsWithoutFlags` | AmatsukazeGUI/Server/Misc.cs:21-22 | without flags the options are Standalone and port 32768 |
| `GuiOption.ScanProvenance` | AmatsukazeGUI/Server/Misc.cs:29-49 | each final field is its initial value or was set from the argument following some `-p`/`--port` (the parsed port) or `-l`/`--launch` (the named launch type) |
| `GuiOption.ScanFailsOnlyAtFlag` | AmatsukazeGUI/Server/Misc.cs:29-36 | the constructor throws only when the last argument is a flag missing its value, or when a port argument does not parse |
| `GuiOption.LaunchValueIsRescanned` | AmatsukazeGUI/Server/Misc.cs:29-49 | `-p` skips its argument and `-l` does not: `-l -p 80` gives Client and port 80; `-p 80 -l server` gives Server and 80; a trailing `--launch` throws |
| `GuiOption.GuiOption.constructor` | AmatsukazeGUI/Server/Misc.cs:21-51 | the loop with its mutable index leaves the two fields equal to the scan's result |
| `ConsoleText.Step` | AmatsukazeGUI/Server/Misc.cs:124-144 | one byte makes at most one handler call, and only a terminator makes one; the text of that call followed by the new `rawtext` is the old `rawtext` followed by the byte unless it is a terminator |
| `ConsoleText.Feed` | AmatsukazeGUI/Server/Misc.cs:122-145 | the loop makes at most one handler call per byte fed |
| `ConsoleText.FeedChunks` | AmatsukazeGUI/Server/Misc.cs:120-146 | feeding two chunks one after the other gives the same state and the same handler calls as feeding their concatenation |
| `ConsoleText.FeedText` | AmatsukazeGUI/Server/Misc.cs:141-144 | bytes that are not `\n` or `\r` are appended to `rawtext` in order, with no handler call and `isCR` unchanged |
| `ConsoleText.FeedMatchesLines` | AmatsukazeGUI/Server/Misc.cs:122-145 | the byte-at-a-time loop equals the line-by-line description: each non-empty line is reported once, as a replacement exactly when the terminator before it was `\r`, and empty lines are not reported |
| `ConsoleText.FeedConservesText` | AmatsukazeGUI/Server/Misc.cs:122-145 | the reported texts followed by the pending `rawtext` are the previously pending bytes followed by every non-terminator byte fed, in order |
| `ConsoleText.FeedLinesWellFormed` | AmatsukazeGUI/Server/Misc.cs:124-143 | no reported line is empty or contains a terminator, and `rawtext` never holds one |
| `ConsoleText.FeedFinalState` | AmatsukazeGUI/Server/Misc.cs:124-144 | afterwards `rawtext` is what followed the last terminator and `isCR` is whether that terminator was `\r`; without a terminator the bytes are appended and `isCR` is kept |
| `ConsoleText.TerminatorFlushes` | AmatsukazeGUI/Server/Misc.cs:124-139 | a terminator with pending text makes exactly one handler call carrying that text, chosen by the previous `isCR`, and empties `rawtext`; with nothing pending it makes none; either way `isCR` becomes whether it was `\r` |
| `ConsoleText.ProgressLineIsReplaced` | AmatsukazeGUI/Server/Misc.cs:129-139 | `1\r2\r3\n` reports add 1, replace 2, replace 3 |
| `ConsoleText.CrLfEndsOneLine` | AmatsukazeGUI/Server/Misc.cs:124-139 | `1\r\n2\n` reports add 1, add 2: the empty line between `\r` and `\n` is not reported, and `\n` resets `isCR` |
| `ConsoleText.ScannedAsWritten` | AmatsukazeGUI/Server/Misc.cs:120-124 | the bytes the loop reads are `buf[0..count)`, cut at the end of the buffer, whatever `offset` is |
| `ConsoleText.ScannedIntended` | AmatsukazeGUI/Server/Misc.cs:120 | the window of the (buffer, offset, count) convention: `count` bytes starting at `buf[offset]` |
| `ConsoleText.OffsetIsIgnored` | AmatsukazeGUI/Server/Misc.cs:120-124 | with `offset` 1 the loop reads `buf[0]` instead of `buf[1]`, so a line end is missed |
| `ConsoleText.ConsoleTextBase.constructor` | AmatsukazeGUI/Server/Misc.cs:111-112 | a new splitter has empty `rawtext`, `isCR` false, and has made no handler call |
| `ConsoleText.ConsoleTextBase.OnAddLine` | AmatsukazeGUI/Server/Misc.cs:108 | records one add-line call with the text |
| `ConsoleText.ConsoleTextBase.OnReplaceLine` | AmatsukazeGUI/Server/Misc.cs:109 | records one replace-line call with the text |
| `ConsoleText.ConsoleTextBase.Clear` | AmatsukazeGUI/Server/Misc.cs:114-118 | empties `rawtext`, resets `isCR` to false, and changes nothing else |
| `ConsoleText.ConsoleTextBase.Consume` | AmatsukazeGUI/Server/Misc.cs:124-144 | one loop round moves the fields to `Step`'s state and appends `Step`'s handler calls |
| `ConsoleText.ConsoleTextBase.AddBytes` | AmatsukazeGUI/Server/Misc.cs:120-146 | the new fields and the appended handler calls are `Feed` of the old fields over `buf[0..count)`; every line it reports is non-empty and free of terminators; it reports an overrun exactly when `count` exceeds the buffer |
| `ConsoleText.ConsoleTextBase.AddBytesAt` | AmatsukazeGUI/Server/Misc.cs:120-146 | the same over `buf[offset..offset+count)` |

## Left out

- The stream reformation engine (timestamp normalising, format segmentation, audio/video synchronising) is not part of this model: its source files are not among the modelled ones.
- Most of `parseArgs` (Amatsukaze/AmatsukazeCLI.hpp:222-554): configuration wiring that parses floating-point values with `sscanf`, integers with `std::stoi`/`std::stol`, and calls environment-dependent helpers (`GetModuleDirectory`, `SearchExe`). Only the `-o`, `-w` and `--drcs` path compositions are modelled; `-i` is `pathNormalize` alone.
- `to_string(std::wstring)`: a wrapper over the Win32 `WideCharToMultiByte` conversion.
- `printCopyright`, `printHelp`: console output. Their encoder and decoder name lists appear only as the names of `CliOptions.HelpNamesRoundTrip`.
- `amatsukaze_av_log_callback`: a critical section, `vsnprintf` and stderr output.
- `amatsukazeTranscodeMain`, `AmatsukazeCLI`: dispatch to pipeline stages and test routines outside the modelled files.
- Amatsukaze/Amatsukaze.cpp: Avisynth plugin registration and `DllMain`.
- In Misc.cs: the `Util` log handlers, `AttachHandler` (async), the `DateTime`/`TimeSpan` formatting, the `GetDiskFreeSpaceEx` P/Invoke and `Debug.Print`: I/O, asynchrony and foreign calls.
- `ConsoleText.ConsoleTextBase.OnAddLine`, `ConsoleText.ConsoleTextBase.OnReplaceLine`: the abstract handlers (AmatsukazeGUI/Server/Misc.cs:108-109) are modelled as calls that only record themselves in `emitted`. A subclass handler that throws, which in the source leaves `rawtext` uncleared and `isCR` unset (Misc.cs:129-139), or one that calls back into `Clear` or `AddBytes`, is not modelled.
- `ConsoleText`: `Encoding.Default.GetString` is taken as the identity, so a reported line is its bytes; code-page decoding is not modelled.
- `GuiOption`: `int.Parse` is the parameter `parseInt`; the exact text format and 32-bit range it accepts are not modelled.
- `CliPaths.EqualsIgnoreCase`: `_wcsicmp` is modelled as ASCII case folding; locale-dependent folding of other letters, and a comparison cut short by an embedded NUL character, are not modelled.
- `CliOptions.EncoderFromStringCharacterized`: the numeric values of the encoder and decoder enumerations are defined in TranscodeManager.hpp, which is not part of this model; only the −1 sentinel is represented, as `EncoderInvalid` and `DecoderInvalid`.
- `GuiOption.GuiOption.constructor`: requires that the scan raises no exception; the exceptions themselves are the `Err` results of `ScanFrom`.

## Findings

| source | as written | input that shows it | evidently intended | confidence | as-written member | corrected member |
|---|---|---|---|---|---|---|
| AmatsukazeGUI/Server/Misc.cs:120-124 | `AddBytes(buf, offset, count)` reads `buf[i]` for `i` in `0..count` and never uses `offset` | `buf = [0x41, 0x0A]`, `offset = 1`, `count = 1`, pending `B`: the `A` is appended and the line end is missed | read `buf[offset + i]`, the .NET (buffer, offset, count) convention | medium: harmless when callers always pass 0; not executed | `ConsoleText.OffsetIsIgnored` | `ConsoleText.ConsoleTextBase.AddBytesAt` |
