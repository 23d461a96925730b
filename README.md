# docker-build: a verified model of the image build command of posedoc

posedoc builds a family of Docker images from `build.php` descriptor files kept
under an `images/` directory. Its `docker-build` console command:

- reads a `.posignore` skip list;
- loads every descriptor found under the images directory;
- orders the batch so that every image comes after the images of the batch it is
  built `FROM`;
- checks out the projects the descriptors name;
- injects composer and git instructions into every descriptor;
- runs `docker build`/`docker save` for each image in turn.

This project models that command (`src/Composer/Command/DockerBuildCommand.php`)
in Dafny and proves what it promises.

Modules, following the structure of the command:

- `PhpStrings`: the PHP string functions involved:
  - the tag strip `preg_replace('/:[^:]*$/', '', …)`;
  - `trim`, `str_replace` and PHP truthiness;
  - `explode`/`array_pop` of the last path segment;
  - the tar-name derivation;
  - the ascending key order used to break ties.
- `BuildFiles`: an image descriptor (the `BaseImage` a `build.php` returns) and a batch of descriptors keyed by
  image name. The batch stands for a PHP ordered associative array: a key order and a map, with distinct keys.
- `Dependencies`:
  - `filterBuildFiles` (internal vs. external images);
  - `getDependencyTree` (the chain of internal ancestors);
  - `sortBuildFiles` (external images first, then the internal ones parents first).
- `Loading`: the `.posignore` line filter and `loadBuildFiles` over the traversal of the images directory.
- `Injection`: the instructions `addComposerInstallCommand` and `setDefaultGitProtocol` append to a descriptor.
- `Projects`: the project list of `checkoutProjects`, with its de-duplication, project names and the pull/clone
  decision.
- `Events`: the observable effects of a run, each one event in a trace: the copy of composer.phar, the exit,
  the `.posignore` read-error message, the asset copies, the Dockerfile write, the changes of directory, the git
  and docker commands, the `mv` of the archive, the "single image" message and the clean-up. What the command
  asks of the outside world is not an event but an input of the environment: the `file_exists` checks, the
  `fopen`/`fgets`/`feof` reading of `.posignore`, the directory traversal, and the auth file.
- `Command`: the command object as a class whose fields `buildFiles` and `posignore` its methods update. It has
  a functional specification of a whole `execute` run and the properties proved about that run.
- `Scenarios`: the data sets of the unit tests with the classifications, trees and orders the tests expect.

The environment of a run is a parameter of `execute`:

- whether the images directory exists;
- the `.posignore` file;
- the traversal of the images directory, each path with the descriptor its `include` returns;
- the GitHub token of the auth file;
- the project directory: the names already present in it, and the repositories whose `git clone` succeeds. The
  command ignores what `system('git clone …')` returns and asks `file_exists` again for every project, so a
  failed clone leaves the directory missing for the projects that follow.

A missing `.posignore` makes `execute` return before anything is loaded (lines 134-136).

## Model

| member | source | states |
|---|---|---|
| PhpStrings.StripTag | src/Composer/Command/DockerBuildCommand.php:476 | `preg_replace('/:[^:]*$/', '', …)`: the reference up to its last ':', or all of it without one; StripTagShape, StripTagOfTagged and StripTagRetag state its properties |
| PhpStrings.LastIndexOf | src/Composer/Command/DockerBuildCommand.php:476 | the position found is in range and holds the character searched for, or is -1 |
| PhpStrings.LastIndexOfIsLast | src/Composer/Command/DockerBuildCommand.php:476 | no occurrence of the character follows the position found, so it is the last one |
| PhpStrings.StripTagShape | src/Composer/Command/DockerBuildCommand.php:476 | the stripped reference is a prefix of the input; it is the input when there is no ':'; otherwise the next character is ':' and no ':' follows it (the last colon and everything after it are removed) |
| PhpStrings.StripTagOfTagged | src/Composer/Command/DockerBuildCommand.php:531 | stripping `name:tag` with a colon-free tag gives back `name` |
| PhpStrings.StripTagRetag | src/Composer/Command/DockerBuildCommand.php:476 | replacing only the tag of a reference does not change its stripped form |
| PhpStrings.LastSegment | src/Composer/Command/DockerBuildCommand.php:247-248 | the last `/`-segment contains no separator, is a suffix of the input and is preceded by the separator unless it is the whole input |
| PhpStrings.RemoveAll | src/Composer/Command/DockerBuildCommand.php:248 | `str_replace(pat, '', s)` never makes the string longer |
| PhpStrings.RemoveAllKeeps | src/Composer/Command/DockerBuildCommand.php:248 | every character left after removal was in the input |
| PhpStrings.RemoveAllAbsent | src/Composer/Command/DockerBuildCommand.php:248 | removing a pattern that does not occur leaves the string unchanged |
| PhpStrings.RemoveGitSuffix | src/Composer/Command/DockerBuildCommand.php:248 | removing ".git" from `n + ".git"` is removing it from `n` |
| PhpStrings.Truthy | src/Composer/Command/DockerBuildCommand.php:142 | the truth value of a string in `if ($line && …)`: false exactly for "" and "0"; ZeroLineDropped and NameLineKept use it |
| PhpStrings.TrimLeft | src/Composer/Command/DockerBuildCommand.php:141 | the result is a suffix of the input, only whitespace was cut, and it does not start with whitespace |
| PhpStrings.TrimRight | src/Composer/Command/DockerBuildCommand.php:141 | the result is a prefix of the input, only whitespace was cut, and it does not end with whitespace |
| PhpStrings.Trim | src/Composer/Command/DockerBuildCommand.php:141 | `trim` yields a string that neither starts nor ends with PHP's default trim characters |
| PhpStrings.TrimIdempotent | src/Composer/Command/DockerBuildCommand.php:141 | trimming twice is trimming once |
| PhpStrings.TrimLeftPadded | src/Composer/Command/DockerBuildCommand.php:141 | leading whitespace in front of a text that starts with a visible character is exactly what is cut |
| PhpStrings.TrimRightPadded | src/Composer/Command/DockerBuildCommand.php:141 | trailing whitespace after a text that ends with a visible character is exactly what is cut |
| PhpStrings.TrimPadded | src/Composer/Command/DockerBuildCommand.php:141 | a text padded with whitespace on both sides trims to the text |
| PhpStrings.TarName | src/Composer/Command/DockerBuildCommand.php:318 | the tar name has the image name's length and replaces exactly every '/' by '_' |
| PhpStrings.TarNameFlat | src/Composer/Command/DockerBuildCommand.php:318 | a tar name never contains '/' |
| PhpStrings.LexIrreflexive | src/Composer/Command/DockerBuildCommand.php:503-508 | the tie-breaking key order is irreflexive |
| PhpStrings.LexLessAfterPrefix | src/Composer/Command/DockerBuildCommand.php:503-508 | a first differing character decides the key order |
| PhpStrings.LexAsymmetric | src/Composer/Command/DockerBuildCommand.php:503-508 | the key order is asymmetric |
| PhpStrings.LexTotal | src/Composer/Command/DockerBuildCommand.php:503-508 | any two distinct keys are ordered one way or the other |
| PhpStrings.LexTransitive | src/Composer/Command/DockerBuildCommand.php:503-508 | the key order is transitive |
| BuildFiles.Descriptor.RunCommand | src/Composer/Command/DockerBuildCommand.php:352-357 | `$build->run($args)` appends one `RUN` instruction and leaves every other field alone; InjectedLayout and PreparedLayout state what the runs add up to |
| BuildFiles.Descriptor.AddFile | src/Composer/Command/DockerBuildCommand.php:369-386 | `$build->add($source, $target)` appends one `ADD` instruction and leaves every other field alone |
| BuildFiles.Empty | src/Composer/Command/DockerBuildCommand.php:428 | `array()` is a well-formed batch with no keys |
| BuildFiles.Put | src/Composer/Command/DockerBuildCommand.php:447 | `$a[$k] = $d` keeps the batch well-formed, maps `k` to `d`, appends `k` to the key order only when it is new and never reorders the keys already there |
| Dependencies.ParentKey | src/Composer/Command/DockerBuildCommand.php:473-476 | the tag-stripped `getFrom()` of a descriptor, the key `filterBuildFiles` and `getDependencyTree` look up |
| Dependencies.IsInternal | src/Composer/Command/DockerBuildCommand.php:478 | an image is internal exactly when its tag-stripped parent is a key of the batch; ClassifiedPartition and FilterPartition are stated in its terms |
| Dependencies.Filtered | src/Composer/Command/DockerBuildCommand.php:464-490 | the batch `filterBuildFiles` returns: the internal or external images in input order with their descriptors; FilterValid, FilterPartition and FilterKeepsOrder state its properties |
| Dependencies.Classified | src/Composer/Command/DockerBuildCommand.php:472-483 | a key is listed in a class exactly when it is among the keys walked and its stripped parent is (internal) or is not (external) a key of the batch |
| Dependencies.ClassifiedSnoc | src/Composer/Command/DockerBuildCommand.php:472-483 | one more iteration appends the image to its own class and leaves the other class unchanged |
| Dependencies.FilterBuildFiles | src/Composer/Command/DockerBuildCommand.php:464-490 | the loop returns the filtered batch of the requested class: well-formed, in input order, each image with its original descriptor |
| Dependencies.FilterStep | src/Composer/Command/DockerBuildCommand.php:472-483 | each iteration keeps the accumulator of each class well-formed, listing that class of the keys seen so far, with the original descriptors |
| Dependencies.FilteredFromEntries | src/Composer/Command/DockerBuildCommand.php:485-489 | the accumulator the loop ends with is the filtered batch |
| Dependencies.FilteredAt | src/Composer/Command/DockerBuildCommand.php:478-482 | the filtered batch holds an image exactly when it is of the requested class, with its original descriptor |
| Dependencies.FilteredDomainAt | src/Composer/Command/DockerBuildCommand.php:478-482 | a well-formed batch listing the keys of one class holds exactly the images of that class |
| Dependencies.ClassifiedPartition | src/Composer/Command/DockerBuildCommand.php:472-483 | the two classes together are the keys walked, counted with multiplicity, and no key is in both |
| Dependencies.ClassifiedDistinct | src/Composer/Command/DockerBuildCommand.php:472-483 | a class of distinct keys has no repeats |
| Dependencies.ClassifiedKeepsOrder | src/Composer/Command/DockerBuildCommand.php:472-483 | a class keeps the relative order of the keys walked |
| Dependencies.FilterValid | src/Composer/Command/DockerBuildCommand.php:464-490 | each filtered batch is well-formed and a sub-map of the input |
| Dependencies.FilterPartition | src/Composer/Command/DockerBuildCommand.php:464-490 | the internal and external batches are disjoint, their union is the input map, and their keys are a permutation of the input keys |
| Dependencies.FilterKeepsOrder | src/Composer/Command/DockerBuildCommand.php:464-490 | both filtered batches keep the input's iteration order |
| Dependencies.RetagKeepsClassification | src/Composer/Command/DockerBuildCommand.php:476-478 | changing only the tag of an image's parent changes neither class |
| Dependencies.SameClassesSameKeys | src/Composer/Command/DockerBuildCommand.php:478 | two batches that agree on which keys are internal have the same classes |
| Dependencies.DependencyTree | src/Composer/Command/DockerBuildCommand.php:523-548 | `getDependencyTree` from an empty visited set; WalkIsParentChain gives its result as the nearest-first chain of internal ancestors |
| Dependencies.Walk | src/Composer/Command/DockerBuildCommand.php:523-548 | a successful walk extends the path it was given, and every key it adds is a batch key not visited before |
| Dependencies.WalkExtendsPath | src/Composer/Command/DockerBuildCommand.php:533-545 | the walk with a path is the path followed by the walk from an empty path, and success or failure does not depend on the path |
| Dependencies.WalkIsParentChain | src/Composer/Command/DockerBuildCommand.php:530-545 | the keys a successful walk adds are the chain of tag-stripped parents, nearest ancestor first, without repeats |
| Dependencies.ClosedWalkFails | src/Composer/Command/DockerBuildCommand.php:533-542 | a walk that enters a set of images whose parents are all in the set (a cycle) fails instead of recursing forever |
| Dependencies.ChainEntryBefore | src/Composer/Command/DockerBuildCommand.php:503-508 | in a parents-first order, every member of an image's ancestor chain comes before the image |
| Dependencies.ParentsFirstGivesAncestorsFirst | src/Composer/Command/DockerBuildCommand.php:503-508 | an order with every parent before its child has every ancestor before its descendant |
| Dependencies.OrderedWalkSucceeds | src/Composer/Command/DockerBuildCommand.php:523-548 | when a parents-first order exists, a walk that has not visited the part of the order it needs succeeds |
| Dependencies.OrderedMeansAcyclic | src/Composer/Command/DockerBuildCommand.php:523-548 | a batch that has a parents-first order has a dependency tree for every image |
| Dependencies.Schedule | src/Composer/Command/DockerBuildCommand.php:503-508 | the order that replaces `uksort` of the internal images; SchedulePermutation, ScheduleDistinct, ScheduleParentsFirst and ScheduleFailsOnCycle state its properties |
| Dependencies.Ready | src/Composer/Command/DockerBuildCommand.php:503-508 | an image is ready exactly when it is pending and its parent is not pending |
| Dependencies.MinKey | src/Composer/Command/DockerBuildCommand.php:503-508 | the tie-break picks one of the candidates |
| Dependencies.MinKeyIsLeast | src/Composer/Command/DockerBuildCommand.php:503-508 | the picked candidate comes first in ascending key order |
| Dependencies.Remove | src/Composer/Command/DockerBuildCommand.php:503-508 | removing a pending image shortens the list by one and adds nothing |
| Dependencies.RemoveMultiset | src/Composer/Command/DockerBuildCommand.php:503-508 | removal takes exactly one occurrence out of the multiset |
| Dependencies.RemoveDistinct | src/Composer/Command/DockerBuildCommand.php:503-508 | removal from a repeat-free list keeps it repeat-free and drops exactly that image |
| Dependencies.NextKey | src/Composer/Command/DockerBuildCommand.php:503-508 | the next image scheduled is pending and its parent is not |
| Dependencies.ScheduleStep | src/Composer/Command/DockerBuildCommand.php:503-508 | a successful schedule starts with the next ready image, followed by the schedule of the rest |
| Dependencies.ScheduleCons | src/Composer/Command/DockerBuildCommand.php:503-508 | a schedule is assembled from its first image and the schedule of the rest |
| Dependencies.SchedulePermutation | src/Composer/Command/DockerBuildCommand.php:503-508 | the internal order is a permutation of the internal images |
| Dependencies.ScheduleMembers | src/Composer/Command/DockerBuildCommand.php:503-508 | the internal order lists only pending images |
| Dependencies.ScheduleDistinct | src/Composer/Command/DockerBuildCommand.php:503-508 | the internal order has no repeats |
| Dependencies.ScheduleParentsFirst | src/Composer/Command/DockerBuildCommand.php:503-508 | every image whose parent is pending comes after that parent |
| Dependencies.ScheduleFailsOnCycle | src/Composer/Command/DockerBuildCommand.php:503-508 | the schedule fails only when some pending image has no finite dependency tree |
| Dependencies.BuildOrder | src/Composer/Command/DockerBuildCommand.php:498-511 | `array_merge($externalImages, $internalImages)` after the sort; BuildOrderPermutation, BuildOrderExternalFirst, BuildOrderParentsFirst and BuildOrderComplete state its properties |
| Dependencies.BuildOrderOfSchedule | src/Composer/Command/DockerBuildCommand.php:510 | the result is the external keys followed by the internal schedule |
| Dependencies.BuildOrderShape | src/Composer/Command/DockerBuildCommand.php:500-510 | a sorted batch is the external images in input order followed by the scheduled internal ones, with the descriptors unchanged |
| Dependencies.BuildOrderPermutation | src/Composer/Command/DockerBuildCommand.php:498-511 | the sorted batch is well-formed and its keys are a permutation of the input keys |
| Dependencies.BuildOrderExternalFirst | src/Composer/Command/DockerBuildCommand.php:500-510 | all external keys come first in their original order, and every key after them is internal |
| Dependencies.BuildOrderParentsFirst | src/Composer/Command/DockerBuildCommand.php:503-510 | in the sorted batch every parent, and every key of each image's dependency tree, comes before the image |
| Dependencies.AppendParentsFirst | src/Composer/Command/DockerBuildCommand.php:510 | external images followed by internal ones whose parents come earlier form a parents-first order |
| Dependencies.BuildOrderComplete | src/Composer/Command/DockerBuildCommand.php:498-548 | sorting fails exactly when some image's dependency tree does not end (a cycle among the images) |
| Dependencies.SortBuildFiles | src/Composer/Command/DockerBuildCommand.php:498-511 | sorting fails exactly on a cycle; otherwise it returns the same descriptors with the keys permuted, the external images first in input order, and every ancestor before its descendant |
| Scenarios.Set1 | tests/Composer/Test/Command/DockerBuildCommandTest.php:232-244 | the first test batch is well-formed |
| Scenarios.Parents | tests/Composer/Test/Command/DockerBuildCommandTest.php:237-262 | the untagged parents of the test descriptors strip to themselves |
| Scenarios.Set1Filter | tests/Composer/Test/Command/DockerBuildCommandTest.php:193-203 | batch 1 classifies image2 as internal and image1 as external |
| Scenarios.FamilyValid | tests/Composer/Test/Command/DockerBuildCommandTest.php:251-262 | the shape of test batch 2, over any distinct names, is a well-formed batch |
| Scenarios.FamilyParents | tests/Composer/Test/Command/DockerBuildCommandTest.php:251-262 | the parents in that shape are image2, image1, an outside image, image2 and another outside image |
| Scenarios.FamilyFirstReady | tests/Composer/Test/Command/DockerBuildCommandTest.php:174-183 | of the internal images of batch 2 only image2 is ready first |
| Scenarios.FamilySecondReady | tests/Composer/Test/Command/DockerBuildCommandTest.php:174-183 | once image2 is placed, image4 and image3 are both ready |
| Scenarios.FamilyLastStep | tests/Composer/Test/Command/DockerBuildCommandTest.php:174-183 | a lone remaining image4 is scheduled as itself |
| Scenarios.FamilyLastTwo | tests/Composer/Test/Command/DockerBuildCommandTest.php:174-183 | image3 and image4 are scheduled in ascending key order |
| Scenarios.FamilySchedule | tests/Composer/Test/Command/DockerBuildCommandTest.php:174-183 | the internal images of batch 2 are scheduled image2, image3, image4 |
| Scenarios.FamilyClasses | tests/Composer/Test/Command/DockerBuildCommandTest.php:204-217 | image2, image3 and image4 are internal; image1 and image5 are external |
| Scenarios.FamilyInternal | tests/Composer/Test/Command/DockerBuildCommandTest.php:207-211 | the internal batch lists image4, image2, image3 in input order |
| Scenarios.FamilyExternal | tests/Composer/Test/Command/DockerBuildCommandTest.php:212-215 | the external batch lists image1, image5 in input order |
| Scenarios.FamilyFilter | tests/Composer/Test/Command/DockerBuildCommandTest.php:204-217 | both filtered key lists of the batch-2 shape |
| Scenarios.FamilyTrees | tests/Composer/Test/Command/DockerBuildCommandTest.php:284-298 | the dependency trees of the batch-2 shape are [image2, image1] twice, [image1], [] and [] |
| Scenarios.FamilyInternalSchedule | tests/Composer/Test/Command/DockerBuildCommandTest.php:174-183 | the schedule of the internal batch is image2, image3, image4 |
| Scenarios.FamilyOrder | tests/Composer/Test/Command/DockerBuildCommandTest.php:174-183 | the batch-2 shape sorts to image1, image5, image2, image3, image4 |
| Scenarios.Set2Names | tests/Composer/Test/Command/DockerBuildCommandTest.php:246-262 | the literal names of test batch 2 fit the shape, with image3 before image4 |
| Scenarios.Set2Untagged | tests/Composer/Test/Command/DockerBuildCommandTest.php:246-262 | none of the test names carries a tag |
| Scenarios.Set2Distinct | tests/Composer/Test/Command/DockerBuildCommandTest.php:246-262 | the seven names of the test batch are pairwise different |
| Scenarios.Set2Lex | tests/Composer/Test/Command/DockerBuildCommandTest.php:177-182 | "example/image3" precedes "example/image4" in key order |
| Scenarios.Set2Filter | tests/Composer/Test/Command/DockerBuildCommandTest.php:204-217 | batch 2 classifies image4, image2, image3 as internal and image1, image5 as external |
| Scenarios.Set2Trees | tests/Composer/Test/Command/DockerBuildCommandTest.php:284-298 | the dependency trees the test expects for batch 2 |
| Scenarios.Set2Order | tests/Composer/Test/Command/DockerBuildCommandTest.php:174-183 | batch 2 sorts to image1, image5, image2, image3, image4 as the test expects |
| Scenarios.Set1Order | tests/Composer/Test/Command/DockerBuildCommandTest.php:167-173 | batch 1 sorts to image1, image2 as the test expects |
| Loading.IsEntry | src/Composer/Command/DockerBuildCommand.php:142 | a trimmed line is kept exactly when it is truthy and does not start with '#'; IgnoreEntriesComplete, ZeroLineDropped and CommentLineDropped are stated in its terms |
| Loading.IgnoreEntries | src/Composer/Command/DockerBuildCommand.php:140-145 | the skip list never has more entries than the file has lines |
| Loading.IgnoreEntriesTrimmed | src/Composer/Command/DockerBuildCommand.php:141-143 | every kept entry is non-empty, truthy, does not start with '#' and is already trimmed |
| Loading.IgnoreEntriesSnoc | src/Composer/Command/DockerBuildCommand.php:140-145 | reading one more line appends its trimmed text exactly when it is an entry |
| Loading.IgnoreEntriesPrefix | src/Composer/Command/DockerBuildCommand.php:140-145 | the entries of the first i+1 lines are those of the first i, then line i's if it is one |
| Loading.IgnoreEntriesAppend | src/Composer/Command/DockerBuildCommand.php:140-145 | the entries of two runs of lines are the entries of each in order, so file order is kept |
| Loading.TrimAll | src/Composer/Command/DockerBuildCommand.php:141 | one trimmed line per line, in order |
| Loading.IgnoreEntriesComplete | src/Composer/Command/DockerBuildCommand.php:140-145 | an entry is kept exactly when it is a trimmed line that is truthy and does not start with '#' |
| Loading.IgnoreEntriesOne | src/Composer/Command/DockerBuildCommand.php:141-143 | a single line contributes its trimmed text exactly when that text is an entry |
| Loading.IgnoreEntriesPadded | src/Composer/Command/DockerBuildCommand.php:141-143 | a padded line contributes its text exactly when that text is an entry |
| Loading.ZeroLineDropped | src/Composer/Command/DockerBuildCommand.php:142 | a line " 0" is dropped by PHP truthiness |
| Loading.CommentLineDropped | src/Composer/Command/DockerBuildCommand.php:142 | a comment line is dropped |
| Loading.NameLineKept | src/Composer/Command/DockerBuildCommand.php:141-143 | an image name line is kept, trimmed |
| Loading.IsBuildFile | src/Composer/Command/DockerBuildCommand.php:431 | a traversal entry is a build file exactly when its `basename` is "build.php" |
| Loading.ImageName | src/Composer/Command/DockerBuildCommand.php:432-436 | the image name: the images-directory prefix removed first, then "/build.php"; ImageNameOfBuildFile gives the name of a build file directly below the images directory |
| Loading.Basename | src/Composer/Command/DockerBuildCommand.php:431 | a basename contains no '/' |
| Loading.ImageNameOfBuildFile | src/Composer/Command/DockerBuildCommand.php:432-436 | the image name of `imagesDir/name/build.php` is `name` |
| Loading.RemovePrefix | src/Composer/Command/DockerBuildCommand.php:432-436 | removing the images-directory prefix drops a leading occurrence |
| Loading.RemoveSuffix | src/Composer/Command/DockerBuildCommand.php:432-436 | removing "/build.php" drops a trailing occurrence |
| Loading.RemoveAllShort | src/Composer/Command/DockerBuildCommand.php:432-436 | a string shorter than the pattern is left alone |
| Loading.BuildEntriesSnoc | src/Composer/Command/DockerBuildCommand.php:429-437 | one more traversal path contributes its entry when it is a build file |
| Loading.BuildEntriesMembers | src/Composer/Command/DockerBuildCommand.php:429-437 | an entry is produced exactly when some traversal path produces it |
| Loading.EntryOf | src/Composer/Command/DockerBuildCommand.php:431-436 | a traversal path contributes one entry, named by its image name, exactly when it is a build file; EntryOfNames states the name |
| Loading.BuildEntries | src/Composer/Command/DockerBuildCommand.php:429-447 | the build files of the traversal in traversal order, each with its image name; BuildEntriesSnoc and BuildEntriesMembers state its content |
| Loading.Loaded | src/Composer/Command/DockerBuildCommand.php:419-452 | the batch `loadBuildFiles` returns for a traversal and a skip list; LoadedKeys and LoadedFilesValue give its keys and descriptors |
| Loading.LoadedFiles | src/Composer/Command/DockerBuildCommand.php:438-447 | the map `$buildFiles[$imageName] = $build` builds, skipping ignored names, a later entry overwriting an earlier one; LoadedFilesWitness, LoadedFilesHas and LoadedFilesValue state its content |
| Loading.LoadEntries | src/Composer/Command/DockerBuildCommand.php:438-447 | the loaded batch is well-formed |
| Loading.LoadEntriesFiles | src/Composer/Command/DockerBuildCommand.php:438-447 | the loaded map is the store of the non-skipped entries, a later entry overwriting an earlier one of the same name |
| Loading.LoadedFilesWitness | src/Composer/Command/DockerBuildCommand.php:438-447 | every stored image is named by some entry and is not in the skip list |
| Loading.LoadedFilesHas | src/Composer/Command/DockerBuildCommand.php:438-447 | every entry whose name is not skipped is stored |
| Loading.LoadedFilesValue | src/Composer/Command/DockerBuildCommand.php:447 | an image holds the descriptor of the last entry naming it |
| Loading.LoadedKeysSound | src/Composer/Command/DockerBuildCommand.php:429-447 | every loaded image is named by a build file of the traversal and is not skipped |
| Loading.EntryOfNames | src/Composer/Command/DockerBuildCommand.php:431-436 | the entry of a traversal path names the image of that build file |
| Loading.LoadedKeysComplete | src/Composer/Command/DockerBuildCommand.php:429-447 | every build file whose image is not skipped has its image loaded |
| Loading.LoadedKeys | src/Composer/Command/DockerBuildCommand.php:419-452 | an image is loaded exactly when a build file of the traversal names it and the skip list does not |
| Loading.LoadedSkipsIgnored | src/Composer/Command/DockerBuildCommand.php:438-441 | no image of the skip list is ever loaded |
| Injection.InstallArgs | src/Composer/Command/DockerBuildCommand.php:390-403 | the composer install command line for one directory; InstallArgsShape states its form |
| Injection.HasToken | src/Composer/Command/DockerBuildCommand.php:351 | `if ($token)`: a token is used exactly when the auth file yields one that PHP considers true; TokenRunCount is stated in its terms |
| Injection.TokenPart | src/Composer/Command/DockerBuildCommand.php:351-358 | the token run of `if ($token)`; TokenRunCount states when it is there |
| Injection.ComposerPart | src/Composer/Command/DockerBuildCommand.php:365-414 | nothing without directories, otherwise the two `add`s, one install run per directory and the clean-up run; ComposerPartCount, CleanupRunCount and InstallRunCount state its content |
| Injection.Injected | src/Composer/Command/DockerBuildCommand.php:335-417 | what `addComposerInstallCommand` appends: the token part, then the composer part; InjectedLayout and NoDirsOnlyToken state its layout |
| Injection.InstallRuns | src/Composer/Command/DockerBuildCommand.php:389-406 | one install run per directory, in the directories' order |
| Injection.Prepared | src/Composer/Command/DockerBuildCommand.php:299-300 | preparing a descriptor changes only its instruction list, which it extends without altering earlier instructions |
| Injection.CountRuns | src/Composer/Command/DockerBuildCommand.php:351-414 | a count of runs never exceeds the number of instructions |
| Injection.CountRunsAppend | src/Composer/Command/DockerBuildCommand.php:351-414 | counts of runs add up over concatenation |
| Injection.ComposerPartCount | src/Composer/Command/DockerBuildCommand.php:365-414 | the composer part holds no run with a non-"php" prefix except the one clean-up run, and that only when there are directories |
| Injection.TokenRunCount | src/Composer/Command/DockerBuildCommand.php:351-358 | exactly one `git config --global github.accesstoken` run is appended when a truthy token exists, none otherwise |
| Injection.NoDirsOnlyToken | src/Composer/Command/DockerBuildCommand.php:365-367 | without install directories nothing but the token run is appended |
| Injection.InjectedLayout | src/Composer/Command/DockerBuildCommand.php:369-414 | with directories: the token run if any, the auth.json and composer.phar adds, one install run per directory in order, then the clean-up run last |
| Injection.CleanupRunCount | src/Composer/Command/DockerBuildCommand.php:408-414 | exactly one `rm -rf` run when there are directories, none otherwise |
| Injection.InstallRunCount | src/Composer/Command/DockerBuildCommand.php:389-406 | exactly one composer install run per directory |
| Injection.InstallRunsCount | src/Composer/Command/DockerBuildCommand.php:389-406 | the install runs are counted once per directory |
| Injection.InstallArgsShape | src/Composer/Command/DockerBuildCommand.php:390-403 | an install run starts with `php composer.phar`, holds `--working-dir=dir`, ends with `install`, and holds `-vvv` exactly in debug mode |
| Injection.PreparedLayout | src/Composer/Command/DockerBuildCommand.php:326-331 | `setDefaultGitProtocol` adds exactly one git protocol run |
| Projects.Merged | src/Composer/Command/DockerBuildCommand.php:237-239 | `array_merge` of the project lists of the batch in batch order; MergedPrefix and MergedMembers state its content |
| Projects.MergedPrefix | src/Composer/Command/DockerBuildCommand.php:237-239 | each image's projects are appended, in batch order |
| Projects.MergedMembers | src/Composer/Command/DockerBuildCommand.php:237-239 | a project is in the merged list exactly when some image names it |
| Projects.Unique | src/Composer/Command/DockerBuildCommand.php:241 | `array_unique` never lengthens the list |
| Projects.UniqueMembers | src/Composer/Command/DockerBuildCommand.php:241 | de-duplication keeps the same set of URLs |
| Projects.UniqueDistinct | src/Composer/Command/DockerBuildCommand.php:241 | the de-duplicated list has no repeats |
| Projects.UniqueFirstOrder | src/Composer/Command/DockerBuildCommand.php:241 | the de-duplicated list keeps the order of first occurrences |
| Projects.UniqueFirstOrderStep | src/Composer/Command/DockerBuildCommand.php:241 | appending a URL keeps the first-occurrence order |
| Projects.AllProjects | src/Composer/Command/DockerBuildCommand.php:234-241 | the project list `checkoutProjects` visits: merged, then `array_unique`; AllProjectsMembers states its members and that it has no repeats |
| Projects.AllProjectsMembers | src/Composer/Command/DockerBuildCommand.php:234-241 | the checkout list has exactly the URLs some loaded image names, without repeats |
| Projects.ProjectName | src/Composer/Command/DockerBuildCommand.php:247-248 | a project name contains no '/' |
| Projects.LastSegmentAfter | src/Composer/Command/DockerBuildCommand.php:247 | the last segment of `p/t` is `t` |
| Projects.ProjectNameOfUrl | src/Composer/Command/DockerBuildCommand.php:247-248 | the name of `base/name.git` is `name` |
| Projects.AfterClone | src/Composer/Command/DockerBuildCommand.php:261-263 | the project directory after one `git clone`: its name is added only when the environment says the clone succeeds; AfterCloneHas states it |
| Projects.CreatedBy | src/Composer/Command/DockerBuildCommand.php:256-264 | the directories a list of projects creates by successful clones; CreatedByMembers states its members |
| Projects.PullOrClone | src/Composer/Command/DockerBuildCommand.php:256-264 | the step outside a dry run: pull when `file_exists` of the project's directory holds, clone otherwise; CheckoutDecision states which one each project gets |
| Projects.AfterCloneHas | src/Composer/Command/DockerBuildCommand.php:261-263 | a clone adds its directory to the names present exactly when it succeeds, and changes nothing else |
| Projects.CheckoutEvents | src/Composer/Command/DockerBuildCommand.php:245-266 | one checkout step per project |
| Projects.CheckoutStep | src/Composer/Command/DockerBuildCommand.php:245-266 | each project is listed in a dry run, pulled when its directory exists and cloned otherwise; the clone makes the directory exist for the later projects only when it succeeds |
| Projects.DryRunOnlyLists | src/Composer/Command/DockerBuildCommand.php:250-255 | a dry run only lists the remote of every project, in order |
| Projects.CheckoutKinds | src/Composer/Command/DockerBuildCommand.php:245-266 | checkout steps are listings, pulls or clones, and only listings in a dry run |
| Projects.CreatedByMembers | src/Composer/Command/DockerBuildCommand.php:256-264 | a directory is created by a list of projects exactly when some project of it has that name and clones successfully |
| Projects.CheckoutHead | src/Composer/Command/DockerBuildCommand.php:256-264 | the first project is pulled when its directory exists, cloned otherwise; the rest see its directory when it existed or its clone succeeded |
| Projects.CheckoutDecision | src/Composer/Command/DockerBuildCommand.php:256-264 | a project is pulled exactly when its directory existed before the checkout or an earlier project's clone created it, otherwise cloned |
| Projects.CreatedByHead | src/Composer/Command/DockerBuildCommand.php:256-264 | the directories created by a prefix are the first project's (when its clone succeeds) and those of the rest of the prefix |
| Projects.ClonesDistinct | src/Composer/Command/DockerBuildCommand.php:256-264 | no directory that already existed is cloned, and none is cloned again after a clone of it succeeded |
| Projects.SharedNamePulled | src/Composer/Command/DockerBuildCommand.php:256-264 | a later project sharing an earlier project's name is pulled once the earlier clone succeeded |
| Projects.FailedCloneRetried | src/Composer/Command/DockerBuildCommand.php:256-264 | when no earlier clone of a missing directory succeeds, every project with that name is cloned again |
| Projects.SelfEntryPulled | src/Composer/Command/DockerBuildCommand.php:129-131 | a URL whose directory name is "", "." or ".." is pulled once the project directory exists |
| Command.IgnoredBy | src/Composer/Command/DockerBuildCommand.php:138-149 | the skip-list entries a `.posignore` file contributes: those of its lines when it opens, none when `fopen` fails |
| Command.ReadErrors | src/Composer/Command/DockerBuildCommand.php:146-148 | the read-error message when `fgets` stopped before the end of the file |
| Command.ReadEventsOnly | src/Composer/Command/DockerBuildCommand.php:108-148 | reading `.posignore` records only the copy of composer.phar and possibly the read error |
| Command.ImageEvents | src/Composer/Command/DockerBuildCommand.php:302-322 | the steps that build one image outside a dry run: copies, Dockerfile, `docker build`, `docker save`, `mv`; ImageEventsBuilt states that they build exactly that image |
| Command.BuildEvents | src/Composer/Command/DockerBuildCommand.php:296-323 | the trace of `build` for the given images; BuildEventsBuilt, BuildEventsDry and BuildEventsKinds state its properties |
| Command.PreparedBatch | src/Composer/Command/DockerBuildCommand.php:296-300 | the batch after the given images' descriptors were prepared in place; PreparedBatchStep and DescriptorsPrepared state its content |
| Command.RunIgnore | src/Composer/Command/DockerBuildCommand.php:138-149 | the skip list of a run: the entries held before, then those read from `.posignore` |
| Command.CheckoutDir | src/Composer/Command/DockerBuildCommand.php:129-131 | the project directory the checkout sees: `execute` has created it, so its own entry, "." and ".." exist; CheckoutDirHas states it |
| Command.CheckoutDirHas | src/Composer/Command/DockerBuildCommand.php:129-131 | the checkout sees every name present before the run, the directory's own entries, and the same clone outcomes |
| Command.RunCheckoutPulls | src/Composer/Command/DockerBuildCommand.php:256-260 | outside a dry run the checkout pulls a project whose directory existed before the run or whose name is "", "." or ".." |
| Command.ExecuteOutcome | src/Composer/Command/DockerBuildCommand.php:102-160 | the whole run as a function of the environment and the fields beforehand; RunShape, RunEnds, RunBuilt, ParentsBuiltFirst and the other Command lemmas state its properties |
| Command.AfterLoad | src/Composer/Command/DockerBuildCommand.php:152-159 | the run once the batch is loaded: stop on a cycle, otherwise sort, check out and finish; AfterLoadErr and AfterLoadShape state its two cases |
| Command.Finish | src/Composer/Command/DockerBuildCommand.php:157-159 | the run once the batch is sorted and its projects are checked out: build, then clean up; FinishSteps, FinishBuilt and FinishOrder state its properties |
| Command.AssetEvents | src/Composer/Command/DockerBuildCommand.php:220-223 | one copy per asset, in the descriptor's order |
| Command.RunLoaded | src/Composer/Command/DockerBuildCommand.php:152 | the batch a run loads is well-formed |
| Command.DockerBuildCommand.constructor | src/Composer/Command/DockerBuildCommand.php:29-30 | a new command holds no build files and an empty skip list |
| Command.DockerBuildCommand.ReadPosignore | src/Composer/Command/DockerBuildCommand.php:138-149 | the reading loop appends exactly the entries of the lines to the skip list and touches nothing else |
| Command.DockerBuildCommand.LoadBuildFiles | src/Composer/Command/DockerBuildCommand.php:419-452 | the loop returns the loaded batch of the traversal under the current skip list |
| Command.DockerBuildCommand.CheckoutProjects | src/Composer/Command/DockerBuildCommand.php:226-267 | the loops perform the checkout steps of the de-duplicated project list |
| Command.DockerBuildCommand.CopyAddAssets | src/Composer/Command/DockerBuildCommand.php:217-224 | one copy per asset, in order |
| Command.DockerBuildCommand.AddComposerInstallCommand | src/Composer/Command/DockerBuildCommand.php:335-417 | the descriptor gains exactly the injected instructions after its earlier ones, nothing else changes |
| Command.DockerBuildCommand.SetDefaultGitProtocol | src/Composer/Command/DockerBuildCommand.php:326-331 | the descriptor gains exactly the git protocol run |
| Command.DockerBuildCommand.Build | src/Composer/Command/DockerBuildCommand.php:287-324 | a selector other than "all" does nothing; otherwise every descriptor is prepared in place, in a dry run too, and outside a dry run each image is built in batch order |
| Command.DockerBuildCommand.Execute | src/Composer/Command/DockerBuildCommand.php:102-160 | the trace and the fields after a run are those of the run's specification |
| Command.ReadStep | src/Composer/Command/DockerBuildCommand.php:140-145 | one iteration of the reading loop extends the skip list by the entries of one more line |
| Command.InjectedParts | src/Composer/Command/DockerBuildCommand.php:351-414 | the injected instructions split into the token part and, with directories, the composer part |
| Command.InstallStep | src/Composer/Command/DockerBuildCommand.php:389-406 | one iteration of the install loop appends the next directory's run |
| Command.LoadedPrefix | src/Composer/Command/DockerBuildCommand.php:429-448 | one iteration of the loading loop stores the path's image unless it is not a build file or is skipped |
| Command.PreparedBatchStep | src/Composer/Command/DockerBuildCommand.php:296-300 | one iteration of `build` replaces exactly the current image's descriptor by its prepared form |
| Command.BuildEventsStep | src/Composer/Command/DockerBuildCommand.php:296-323 | one iteration of `build` appends the current image's build steps outside a dry run, nothing in one |
| Command.BuiltImagesAppend | src/Composer/Command/DockerBuildCommand.php:316 | the images built by two traces in sequence are those of each in order |
| Command.BuiltImagesMembers | src/Composer/Command/DockerBuildCommand.php:316 | an image is listed as built exactly when the trace has its `docker build` |
| Command.NoneBuilt | src/Composer/Command/DockerBuildCommand.php:316 | a trace without `docker build` builds nothing |
| Command.ImageEventsBuilt | src/Composer/Command/DockerBuildCommand.php:309-322 | the steps for one image build exactly that image and are all build steps |
| Command.BuildEventsBuilt | src/Composer/Command/DockerBuildCommand.php:296-323 | outside a dry run the images are built exactly in batch order |
| Command.BuildEventsDry | src/Composer/Command/DockerBuildCommand.php:302-304 | a dry run copies no asset, writes no Dockerfile and runs no docker command |
| Command.BuildEventsKinds | src/Composer/Command/DockerBuildCommand.php:296-323 | every event of `build` is a build step |
| Command.FinishSteps | src/Composer/Command/DockerBuildCommand.php:157-159 | after loading: the skip list is kept, a single-image selector keeps the sorted batch, the run ends with clean-up, build steps occur only for "all" outside a dry run, and a dry run neither pulls nor clones |
| Command.FinishBuilt | src/Composer/Command/DockerBuildCommand.php:157-159 | the images built are the sorted keys for "all" outside a dry run, none otherwise |
| Command.FinishOrder | src/Composer/Command/DockerBuildCommand.php:157-159 | no checkout step follows a build step |
| Command.StepsInOrder | src/Composer/Command/DockerBuildCommand.php:157-158 | a trace of checkout steps followed by build steps never has a checkout after a build |
| Command.RunStage | src/Composer/Command/DockerBuildCommand.php:134-153 | a run that gets past `.posignore` reads it, loads its batch and continues with ordering |
| Command.AfterLoadErr | src/Composer/Command/DockerBuildCommand.php:153 | a cyclic batch stops the run with an error after loading |
| Command.AfterLoadShape | src/Composer/Command/DockerBuildCommand.php:153-159 | a batch that orders continues with checkout, build and clean-up over the sorted batch |
| Command.RunQuiet | src/Composer/Command/DockerBuildCommand.php:116-153 | a run that stops before ordering succeeds performs nothing beyond copying the phar, exiting, or reporting an error |
| Command.RunShape | src/Composer/Command/DockerBuildCommand.php:102-159 | a complete run is the read phase, then checkout, build and clean-up of the sorted loaded batch |
| Command.ExitWithoutImagesDir | src/Composer/Command/DockerBuildCommand.php:116-119 | without an images directory the run copies the phar and exits, leaving the fields unchanged |
| Command.StopWithoutIgnoreFile | src/Composer/Command/DockerBuildCommand.php:134-136 | without `.posignore` the run returns before loading anything |
| Command.RunEnds | src/Composer/Command/DockerBuildCommand.php:102-160 | a run past `.posignore` keeps the skip list read and ends with clean-up, or with the cycle error |
| Command.DryRunBuildsNothing | src/Composer/Command/DockerBuildCommand.php:250-304 | a dry run builds nothing and neither pulls nor clones |
| Command.SingleImageNotBuilt | src/Composer/Command/DockerBuildCommand.php:289-292 | a single-image selector builds nothing and leaves the loaded descriptors unprepared |
| Command.RunBuilt | src/Composer/Command/DockerBuildCommand.php:287-324 | the images built are exactly the sorted loaded keys for "all" outside a dry run, none otherwise |
| Command.ParentsBuiltFirst | src/Composer/Command/DockerBuildCommand.php:152-158 | a full run builds every loaded image exactly once, each after its parent and all its ancestors |
| Command.BuiltAreLoaded | src/Composer/Command/DockerBuildCommand.php:152-158 | only loaded images are built |
| Command.IgnoredNeverBuilt | src/Composer/Command/DockerBuildCommand.php:438-441 | no image of the skip list is ever built |
| Command.DescriptorsPrepared | src/Composer/Command/DockerBuildCommand.php:296-300 | after a run with "all", every loaded descriptor is prepared, in a dry run too, in the sorted order |
| Command.CheckoutBeforeBuild | src/Composer/Command/DockerBuildCommand.php:157-158 | no project is checked out after an image has started to build |

## Left out

- File-system and process effects are not performed. `copy`, `file_put_contents`, `chdir` and the `system`
  calls to git, docker, cp and mv (lines 108-111, 222, 245-266, 311-322) are events of the trace. The
  `file_exists` checks (lines 116, 134, 257) and `fopen`/`fgets`/`feof` (lines 138-149) are inputs of the
  environment: `imagesDirExists`, the `.posignore` file (missing, unopenable, or its lines and whether reading
  reached the end) and the project directory's names. Only the message of lines 146-148 is an event.
- The three `mkdir` calls (lines 121-131) are not events. They are assumed to succeed: the checkout sees the
  project directory as existing (its own entry, "." and ".." are present).
- Whether each `git clone` succeeds is an input of the environment. A clone that fails but leaves a
  directory behind is described by the names present, not by the clone outcome. Whether `git pull` or
  `git ls-remote` succeeds is not modelled, because nothing later depends on it.
- Clean-up (lines 550-557), the `unlink` of the Dockerfile together with the `rm -rf` of the assets, is one
  event. Whether a Dockerfile existed to delete is not modelled.
- `initOAuth` (lines 162-212) is not part of this model. It is interactive GitHub authorisation.
- The reading of the auth JSON file (lines 341-348) is the `token` field of the environment `Execute` takes. A token that is not a
  string in the JSON is not modelled.
- `include $fileName` (line 446) is not evaluated, and the order of the recursive directory traversal
  (lines 423-429) is not modelled. The traversal is an input sequence of paths, each with the descriptor its
  `include` returns.
- `BaseImage` is not modelled; a descriptor holds the fields the command reads plus the instruction list
  `run`/`add` extend. `toDockerFile()` rendering is not modelled: the
  event records the descriptor.
- The reflection calls of lines 371-386 are a plain `add` append.
- Console definition and output: `configure`, `outputHeader`, every `echo`, the "No token found." debug message.
  The `initConfig` path strings and the `setConfig`/`getConfig` round trip are also left out. None of them
  affects what is built.
- PHP's loose comparison in `in_array` and the conversion of numeric-string array keys to integers are not
  modelled. Keys are compared as exact strings.
- A descriptor is a value. If `build.php` files returned one object under two keys, the source would mutate it
  twice. That aliasing is not captured.
- `$internalBuildFiles` (line 294) and the `$protocol` parameter (line 326) are computed or passed but never used.
  The model omits them.
- Dependencies.SortBuildFiles: `uksort` with the comparator of lines 503-508 is not a consistent order. Its
  output depends on PHP's sort implementation. The model replaces it by a deterministic schedule:
  - repeatedly take the ascending-least internal image whose parent is not pending;
  - the schedule is proved to be a permutation with every ancestor before its descendant;
  - it reproduces the orders the tests expect.
  The exact `uksort` output is not reproduced.
- Dependencies.Walk: `getDependencyTree` has no cycle guard. Called on an image whose chain of parents runs
  into a cycle, it recurses without end. The model walks with a visited set and returns an error on a cycle.
  `execute` then stops with a cycle event.
- Dependencies.SortBuildFiles: the comparator of lines 503-508 walks the dependency tree only from its first
  argument. Whether the source recurses without end on a batch with a cycle therefore depends on which
  comparisons PHP's sort makes. With at most one internal image it makes none. Otherwise it recurses only when
  some comparison passes as first argument a key whose parent chain reaches the cycle. For
  `{e: FROM ubuntu, d: FROM e, c: FROM c}` the single comparison `cmp(d, c)` ends at `e`, and the source
  builds all three. The source may or may not diverge on a cycle. The model rejects every cycle.
