# initaiagent in Dafny

A model of the text-handling core of `initaiagent`, a command-line tool. The
tool puts bundled template text at the front of the AI-agent instruction files
`CLAUDE.md`, `GEMINI.md` and `AGENTS.md` in a working directory. For each
target file that exists, it does four things:

1. It strips the file's preamble with the **heading stripper**. Everything
   before the first line that starts with `##` is dropped. A file with no
   such line loses everything.
2. It trims the surrounding whitespace.
3. It joins the template and the surviving text with the **content merger**.
   The template comes first and is never altered. When text survives, the
   `\n---\n\n` separator block sits between the two. Before it, one newline
   is added when the template does not already end in one.
4. It writes the result back to the file.

The `-A/--claude`, `-G/--gemini` and `-O/--codex` switches decide which
targets a run visits. With no switch it visits all three.

Modules, one per concept:

- `Text` (`text.dfy`): the `startswith`/`endswith` predicates.
- `Lines` (`lines.dfy`): Python's `s.split('\n')` and `'\n'.join(lines)`, and
  the two round trips between them.
- `Heading` (`heading.dfy`): `Strip`, the heading stripper as the source
  writes it (split, scan for the first `##` line, join the rest). It is
  proved equal to an independent character-level description: the suffix
  that starts at the first position that begins a line and holds `##`.
- `Whitespace` (`whitespace.dfy`): `Trim`, Python's `str.strip()`. Its
  meaning is a unique whitespace-free window, stated by `TrimmedOf`.
- `Merger` (`merger.dfy`): `Merge`, the merge block. `Unmerge` is its
  inverse (returning an `Option`), and it is proved to be one in both directions.
- `Pipeline` (`pipeline.dfy`): `Insert(template, content) = Merge(template,
  Trim(Strip(content)))`. This is what a run writes into one existing target.
- `Targets` (`targets.dfy`): the switch-to-target selection and the file
  names.

Strings are `seq<char>` of Unicode code points. Nothing in the core does
integer arithmetic that could overflow.

Running the tool twice depends on the template, not on the existing text:

- When the template has no line starting with `##`, the second run leaves
  the file exactly as the first run wrote it (`Pipeline.InsertIdempotent`).
- When the template has such a line, every run after the first makes the
  file strictly longer (`Pipeline.InsertGrowsWithHeadedTemplate`): the
  template's own sections are kept as existing text.

The model says where the separator sits (`Merger.MergeLayout`) rather than
counting its occurrences, because the template or the existing text may
themselves contain `\n---\n\n`.

## Model

| member | source | states |
|---|---|---|
| Lines.LineEnd | initaiagent.py:36 | the first line of a text ends at its first newline, or at the end of the text when it has none |
| Lines.Split | initaiagent.py:36 | splitting on `'\n'` yields at least one line (the empty text is one empty line), and no line contains a newline |
| Lines.SplitLineCount | initaiagent.py:36 | splitting yields exactly one more line than the text has newlines |
| Lines.Join | initaiagent.py:42 | joining with `'\n'` gives a text that starts with the first line and ends with the last |
| Lines.JoinSplit | initaiagent.py:36-42 | rejoining the split lines with `'\n'` gives back exactly the original text |
| Lines.SplitJoin | initaiagent.py:36-42 | splitting a join of at least one newline-free line gives back the same lines |
| Lines.SplitAppend | initaiagent.py:36 | splitting `a + "\n" + b` gives the lines of `a` followed by the lines of `b` |
| Heading.FirstHeading | initaiagent.py:39-40 | the loop's index is the first line starting with `##`, or the line count when none does; no earlier line starts with `##` |
| Heading.Strip | initaiagent.py:20-45 | the result is a suffix of the input, and it is either empty or starts with `##` |
| Heading.StripEmpty | initaiagent.py:33-34 | the empty text is returned unchanged |
| Heading.StripAtFirstHeading | initaiagent.py:36-42 | when some line starts with `##`, the result is exactly the suffix of the input from the first such line on, that line included |
| Heading.StripWithoutHeading | initaiagent.py:39-45 | when no line starts with `##`, the result is the empty string |
| Heading.StripIsHeadedSuffix | initaiagent.py:36-45 | the result is empty exactly when no line starts with `##`; otherwise it is a suffix of the input that begins at a line start and starts with `##` |
| Heading.StripKeepsHeadedText | initaiagent.py:36-42 | a text that already starts with `##` (including `###`) is returned unchanged |
| Heading.StripIdempotent | initaiagent.py:20-45 | stripping a stripped text changes nothing |
| Heading.StripSkipsLine | initaiagent.py:39-42 | a first line that does not start with `##` is dropped and the rest is stripped as if it stood alone |
| Heading.StripDropsPreamble | initaiagent.py:39-42 | any number of leading lines that do not start with `##` are dropped |
| Whitespace.Trim | initaiagent.py:100 | the result is the input minus a whitespace-only head and tail, with no whitespace left at either end |
| Whitespace.TrimmedUnique | initaiagent.py:100 | there is only one such trimmed window, so `Trim` is fully determined by that description |
| Whitespace.TrimEmpty | initaiagent.py:100 | trimming leaves the empty string exactly when the text is all whitespace |
| Whitespace.TrimIdempotent | initaiagent.py:100 | trimming twice is trimming once |
| Whitespace.TrimFixesUnpadded | initaiagent.py:100 | a text with no whitespace at either end is unchanged by trimming |
| Whitespace.TrimKeepsUnpaddedStart | initaiagent.py:100 | a text that does not start with whitespace loses only a whitespace tail and keeps every non-whitespace character |
| Merger.Glue | initaiagent.py:108-111 | the text between template and existing text is the separator block, preceded by one newline exactly when the template does not already end in one |
| Merger.Merge | initaiagent.py:104-113 | with empty existing text the result is the template verbatim; otherwise it starts with the template, ends with the existing text, and is exactly as long as template, glue and existing text together |
| Merger.MergeLayout | initaiagent.py:108-113 | with non-empty existing text, the separator block starts right after the template (after one added newline when the template does not end in one), always on a fresh line, and is followed directly by the existing text |
| Merger.UnmergeMerge | initaiagent.py:104-113 | from a merge and its template, the existing text can be recovered exactly, so the merge never alters either part |
| Merger.MergeUnmerge | initaiagent.py:104-113 | any document recognised as template plus separator plus text is the merge of that text |
| Merger.MergeLonger | initaiagent.py:104-113 | with one template, a longer existing text gives a longer merge |
| Pipeline.Insert | initaiagent.py:98-113 | the new file content starts with the template verbatim, and a run adds at most the glue to the combined length of template and old content |
| Pipeline.KeptTextShape | initaiagent.py:98-100 | the stripped and trimmed text is empty exactly when the input has no `##` line; otherwise it starts with `##` and ends in a non-whitespace character |
| Pipeline.InsertWithoutHeading | initaiagent.py:98-113 | a file without any `##` line is replaced by the template alone |
| Pipeline.InsertAtFirstHeading | initaiagent.py:98-113 | with a `##` line, what follows the template and separator is the input from the first such line on, minus only trailing whitespace |
| Pipeline.InsertReplacesPreamble | initaiagent.py:92-113 | a preamble of non-`##` lines (an H1 title and intro paragraphs) followed by a trimmed `##` section becomes the merge of the template with that section |
| Pipeline.ReinsertMerged | initaiagent.py:98-113 | with a template that has no `##` line, running on a merged document gives the same document |
| Pipeline.InsertIdempotent | initaiagent.py:98-113 | with a template that has no `##` line, a second run leaves the file as the first run wrote it |
| Pipeline.InsertGrowsWithHeadedTemplate | initaiagent.py:98-113 | with a template that has a `##` line, every run after the first makes the file strictly longer than the run before |
| Pipeline.InsertNotIdempotentExample | initaiagent.py:98-113 | for the template `"## Rules\n"` and an empty file, the second run differs from the first |
| Targets.Select | initaiagent.py:318-332 | with no switch, all three targets in the order CLAUDE, GEMINI, AGENTS; otherwise exactly the flagged targets, in that same order, without repeats |
| Targets.SelectIsFilteredDefault | initaiagent.py:318-332 | the selection equals the default order filtered by "no switch given, or this target's switch given" |
| Targets.FileName | initaiagent.py:146 | each target names a Markdown (`.md`) file in the working directory |
| Targets.CodexSelectsAgentsFile | initaiagent.py:208-220 | distinct targets name distinct files, and `AGENTS.md` is processed exactly when no switch or the `codex` switch is given |

## Left out

- File system access is not modelled. This covers the existence checks,
  reading and writing with UTF-8, and the template path relative to the
  program's own location (initaiagent.py:75-95, 117-118, 144-156, 176-188,
  208-220). `Insert` is the content a run writes into an existing target
  whose template exists. A missing target or a missing template leaves the
  file untouched, which is not expressed in Dafny.
- The branch of `insert_template_content` for a target that does not exist
  (initaiagent.py:92-93) is not modelled separately. It merges the template
  with the empty string, which `Merger.Merge` covers (the result is the
  template). The callers never reach it, because they return early for a
  missing file.
- Command-line parsing, directory validation and `sys.exit(1)`
  (initaiagent.py:249-312) are not modelled. `Targets.Flags` stands for the
  three parsed switches.
- Messages printed to stdout and stderr, and the catch-all `except` that
  turns an I/O error into a message (initaiagent.py:81, 121-124, 151, 183,
  215), are not modelled. They are side effects only.
- Whitespace.IsSpace: fixes the whitespace set of `str.strip()` to the 29
  code points Python's `str.isspace()` accepts under current Unicode data.
  Python derives this set from the Unicode tables of the interpreter
  version, so an older interpreter may differ.
- Newline translation (initaiagent.py:87, 94, 117): the files are read
  and written in text mode, so `content` and `template` stand for the
  strings as read, in which `\r\n` and a lone `\r` are already `\n`; on
  writing, each `\n` becomes the platform's line separator. A run therefore
  also normalises a file's line endings, which `Insert` does not show.
