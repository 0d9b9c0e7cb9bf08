/**
 * Which files get linted (lib/jshint/lint.rb:30-33, 71-76): glob patterns
 * taken from the options or else from the config, expanded, de-duplicated,
 * the excluded ones subtracted and empty files dropped.
 *
 * The file system (`Dir[]`, `File.size`) and the `Utils` helpers whose code
 * is not part of this model are parameters.
 */
module Selection {
  import opened Values
  import opened Config

  /** The two option keys that name pattern lists. */
  datatype Field = Paths | ExcludePaths

  /** `field.to_s`: the config key a field falls back to. */
  function FieldName(f: Field): string
  {
    match f
    case Paths => "paths"
    case ExcludePaths => "exclude_paths"
  }

  /** The options hash `Lint.new` takes; a key left out is nil (VNull). */
  datatype Options = Options(paths: Value, excludePaths: Value, configPath: Value)

  /** `options[field]` */
  function OptionValue(options: Options, f: Field): Value
  {
    match f
    case Paths => options.paths
    case ExcludePaths => options.excludePaths
  }

  /** `@config[key]`, nil when missing. */
  function ConfigValue(config: Hash, key: string): Value
  {
    match Get(config, key)
    case Some(v) => v
    case None => VNull
  }

  /** `options[field] || @config[field.to_s] || []` */
  function PathSpec(options: Options, config: Hash, f: Field): Value
  {
    var fromOption := OptionValue(options, f);
    var fromConfig := ConfigValue(config, FieldName(f));
    if Truthy(fromOption) then fromOption
    else if Truthy(fromConfig) then fromConfig
    else VArray([])
  }

  /** `path_list = [path_list] unless path_list.is_a?(Array)` */
  function PatternList(spec: Value): seq<Value>
  {
    if spec.VArray? then spec.items else [spec]
  }

  /**
   * Wrapping is done at most once: the list it gives is an Array, which the
   * wrapping leaves alone, and a single pattern selects what its glob gives.
   */
  lemma PatternListWraps(spec: Value, glob: string -> seq<string>)
    ensures PatternList(VArray(PatternList(spec))) == PatternList(spec)
    ensures spec.VStr? ==> AllStrings(PatternList(spec)) && Expand(PatternList(spec), glob) == glob(spec.s)
  {
    if spec.VStr? {
      assert PatternList(spec)[1..] == [];
      assert glob(spec.s) + [] == glob(spec.s);
    }
  }

  /** The patterns a field selects by. */
  function Patterns(options: Options, config: Hash, f: Field): (r: seq<Value>)
    ensures Truthy(OptionValue(options, f)) ==> r == PatternList(OptionValue(options, f))
    ensures !Truthy(OptionValue(options, f)) && Truthy(ConfigValue(config, FieldName(f)))
      ==> r == PatternList(ConfigValue(config, FieldName(f)))
    ensures !Truthy(OptionValue(options, f)) && !Truthy(ConfigValue(config, FieldName(f))) ==> r == []
  {
    PatternList(PathSpec(options, config, f))
  }

  /** Every pattern is a string, as `Dir[]` needs. */
  predicate PatternsAreStrings(options: Options, config: Hash, f: Field)
  {
    AllStrings(Patterns(options, config, f))
  }

  /** `patterns.map { |p| Dir[p] }.flatten`, with `glob` standing for `Dir[]`. */
  function Expand(patterns: seq<Value>, glob: string -> seq<string>): seq<string>
    requires AllStrings(patterns)
  {
    if patterns == [] then [] else glob(patterns[0].s) + Expand(patterns[1..], glob)
  }

  /** Expansion keeps each pattern's matches together, in pattern order. */
  lemma {:induction false} ExpandAppend(ps: seq<Value>, qs: seq<Value>, glob: string -> seq<string>)
    requires AllStrings(ps) && AllStrings(qs)
    ensures AllStrings(ps + qs)
    ensures Expand(ps + qs, glob) == Expand(ps, glob) + Expand(qs, glob)
  {
    if ps != [] {
      assert (ps + qs)[1..] == ps[1..] + qs;
      ExpandAppend(ps[1..], qs, glob);
    } else {
      assert ps + qs == qs;
    }
  }

  /** A file is in the expansion exactly when some pattern matches it. */
  lemma {:induction false} ExpandMembers(patterns: seq<Value>, glob: string -> seq<string>, x: string)
    requires AllStrings(patterns)
    ensures x in Expand(patterns, glob) <==> exists i :: 0 <= i < |patterns| && x in glob(patterns[i].s)
  {
    if patterns != [] {
      ExpandMembers(patterns[1..], glob, x);
      if x in glob(patterns[0].s) {
        assert 0 < |patterns| && x in glob(patterns[0].s);
      }
      if exists i :: 0 <= i < |patterns| && x in glob(patterns[i].s) {
        var i :| 0 <= i < |patterns| && x in glob(patterns[i].s);
        if i > 0 {
          assert patterns[1..][i - 1] == patterns[i];
        }
      }
    }
  }

  /** `files_matching_paths(options, field)`, with `unique` for `Utils.unique_files`. */
  function FilesMatchingPaths(options: Options, config: Hash, f: Field,
                              glob: string -> seq<string>, unique: seq<string> -> seq<string>): seq<string>
    requires PatternsAreStrings(options, config, f)
  {
    unique(Expand(Patterns(options, config, f), glob))
  }

  /** The patterns named in the options win; the config is read only when they are nil or false. */
  lemma OptionsOverrideConfig(options: Options, config: Hash, config': Hash, f: Field,
                              glob: string -> seq<string>, unique: seq<string> -> seq<string>)
    requires Truthy(OptionValue(options, f))
    requires PatternsAreStrings(options, config, f)
    ensures PatternsAreStrings(options, config', f)
    ensures FilesMatchingPaths(options, config, f, glob, unique) == FilesMatchingPaths(options, config', f, glob, unique)
  {
  }

  /** A single pattern given as a string selects what that pattern matches. */
  lemma SinglePattern(options: Options, config: Hash, f: Field, glob: string -> seq<string>)
    requires OptionValue(options, f).VStr?
    ensures PatternsAreStrings(options, config, f)
    ensures Expand(Patterns(options, config, f), glob) == glob(OptionValue(options, f).s)
  {
    assert Patterns(options, config, f) == [OptionValue(options, f)];
    assert Patterns(options, config, f)[1..] == [];
    assert glob(OptionValue(options, f).s) + [] == glob(OptionValue(options, f).s);
  }

  // -------------------------------------------------- dropping empty files

  /** `files.delete_if { |f| File.size(f) == 0 }`, as a value. */
  function NonEmptyFiles(files: seq<string>, size: string -> nat): seq<string>
  {
    if files == [] then []
    else if size(files[0]) == 0 then NonEmptyFiles(files[1..], size)
    else [files[0]] + NonEmptyFiles(files[1..], size)
  }

  /** The filter works file by file: it distributes over concatenation. */
  lemma {:induction false} NonEmptyFilesAppend(a: seq<string>, b: seq<string>, size: string -> nat)
    ensures NonEmptyFiles(a + b, size) == NonEmptyFiles(a, size) + NonEmptyFiles(b, size)
  {
    if a != [] {
      assert (a + b)[1..] == a[1..] + b;
      NonEmptyFilesAppend(a[1..], b, size);
    } else {
      assert a + b == b;
    }
  }

  /** A file stays exactly when it was listed and its size is not zero. */
  lemma {:induction false} NonEmptyFilesMembers(files: seq<string>, size: string -> nat, x: string)
    ensures x in NonEmptyFiles(files, size) <==> x in files && size(x) != 0
  {
    if files != [] {
      NonEmptyFilesMembers(files[1..], size, x);
      assert files == [files[0]] + files[1..];
    }
  }

  /** `a` is `b` with some elements left out and the rest in their order. */
  predicate Subsequence(a: seq<string>, b: seq<string>)
    decreases |b|
  {
    if a == [] then true
    else if b == [] then false
    else if a[0] == b[0] then Subsequence(a[1..], b[1..])
    else Subsequence(a, b[1..])
  }

  /** Dropping empty files keeps the others in their order. */
  lemma {:induction false} NonEmptyFilesOrdered(files: seq<string>, size: string -> nat)
    ensures Subsequence(NonEmptyFiles(files, size), files)
  {
    if files != [] {
      NonEmptyFilesOrdered(files[1..], size);
      var rest := NonEmptyFiles(files[1..], size);
      if size(files[0]) != 0 {
        assert ([files[0]] + rest)[1..] == rest;
      } else if rest != [] && rest[0] == files[0] {
        NonEmptyFilesMembers(files[1..], size, files[0]);
      }
    }
  }

  /** Dropping the empty files twice drops nothing more. */
  lemma {:induction false} NonEmptyFilesIdempotent(files: seq<string>, size: string -> nat)
    ensures NonEmptyFiles(NonEmptyFiles(files, size), size) == NonEmptyFiles(files, size)
  {
    if files != [] {
      NonEmptyFilesIdempotent(files[1..], size);
      var rest := NonEmptyFiles(files[1..], size);
      if size(files[0]) != 0 {
        assert ([files[0]] + rest)[1..] == rest;
      }
    }
  }

  /**
   * The `delete_if` loop: walks the list once and keeps the files whose size
   * is not zero.
   */
  method DeleteEmptyFiles(files: seq<string>, size: string -> nat) returns (kept: seq<string>)
    ensures kept == NonEmptyFiles(files, size)
  {
    kept := [];
    var i := 0;
    while i < |files|
      invariant 0 <= i <= |files|
      invariant kept == NonEmptyFiles(files[..i], size)
    {
      NonEmptyFilesAppend(files[..i], [files[i]], size);
      assert files[..i + 1] == files[..i] + [files[i]];
      assert [files[i]][1..] == [];
      if size(files[i]) != 0 {
        kept := kept + [files[i]];
      }
      i := i + 1;
    }
    assert files[..i] == files;
  }
}
