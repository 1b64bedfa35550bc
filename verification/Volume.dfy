/** Creating and resizing sized volumes (src/main.rs): a sparse backing file with an ext4 filesystem
    on it, changed in ordered steps any of which may fail. */
module Volume {
  import opened Wrappers
  import opened Decimal

  /** The backing file's length and the filesystem's size, as far as they exist. */
  datatype Sizes = Sizes(file: Option<nat>, fs: Option<nat>)
  {
    /** The filesystem does not reach past the end of its file. */
    predicate Fits() {
      fs.Some? ==> file.Some? && fs.value <= file.value
    }
  }

  datatype VolumeError = AlreadyExists | NotSized | BadSize(error: MemoryError) | FileFailed | ToolMissing | ToolFailed

  /** `mkfsSize` is the size mkfs.ext4 gives the filesystem: whole blocks of the file. `removed`:
      whether the file can be removed after a failed mkfs. */
  datatype CreateWorld = CreateWorld(created: bool, lengthSet: bool, mkfsFound: bool, mkfsOk: bool,
                                     mkfsSize: nat, removed: bool, dirMade: bool)

  /** `metaOk`: whether the file's length can be read. `grownSize` and `shrunkSize` are the sizes resize2fs
      gives the filesystem, in whole blocks: when it fills a larger file, and when it is given a size. */
  datatype ResizeWorld = ResizeWorld(metaOk: bool, fileOpened: bool, lengthSet: bool, fsckFound: bool,
                                     resizeFound: bool, resizeOk: bool, grownSize: nat, shrunkSize: nat)

  function Min(a: nat, b: nat): (m: nat)
    ensures m <= a && m <= b && (m == a || m == b)
  {
    if a < b then a else b
  }

  /** The one way a resize can leave a filesystem larger than its file: the length cannot be read and
      counts as 0, so a smaller size is taken for growth and the file is cut first. The file was found
      to exist by the same system call just before, so this takes a call that works, then one that
      fails, then a file that opens for writing. */
  predicate CutsFilesystem(before: Sizes, newSize: nat, world: ResizeWorld) {
    && !world.metaOk && world.fileOpened && world.lengthSet
    && newSize > 0
    && before.fs.Some? && newSize < before.fs.value
  }

  /** Such a resize: a 2 MiB filesystem filling its file, "1k" asked for, and an unreadable length. */
  lemma CutExample(world: ResizeWorld)
    requires !world.metaOk && world.fileOpened && world.lengthSet
    ensures ParseMemory("1k") == Ok(1024)
    ensures CutsFilesystem(Sizes(Some(0x20_0000), Some(0x20_0000)), 1024, world)
    ensures !Sizes(Some(1024), Some(0x20_0000)).Fits()
  {
    var num, suffix := "1", "k";
    assert num[..|num| - 1] == "" && Numeral(num) == Some(1);
    MemoryReadExactly("", num, suffix, "");
    assert "" + num + suffix + "" == "1k";
  }

  class SizedVolume {
    var sizes: Sizes
    var dir: bool
    /** `sizes` after every step that changed it. */
    ghost var trace: seq<Sizes>

    constructor ()
      ensures sizes == Sizes(None, None) && !dir && trace == []
    {
      sizes, dir, trace := Sizes(None, None), false, [];
    }

    ghost predicate Valid()
      reads this
    {
      sizes.Fits() && forall s :: s in trace ==> s.Fits()
    }

    method Put(s: Sizes)
      modifies this`sizes, this`trace
      ensures sizes == s && trace == old(trace) + [s]
    {
      sizes := s;
      trace := trace + [s];
    }

    /** A volume without a size is a directory. One with a size is a file that is created, given its length
        and formatted; every step that fails ends the command. */
    method Create(size: Option<string>, world: CreateWorld) returns (r: Result<(), VolumeError>)
      requires Valid()
      modifies this
      ensures Valid()
      ensures r == Err(AlreadyExists) <==> old(dir) || old(sizes.file).Some?
      ensures dir <==> old(dir) || r.Ok?
      ensures r == Err(AlreadyExists) || size.None? || ParseMemory(size.value).Err? ==>
        sizes == old(sizes) && trace == old(trace)
      ensures r != Err(AlreadyExists) && size.None? ==> (r.Ok? <==> world.dirMade)
      ensures r != Err(AlreadyExists) && size.Some? ==>
        (r.Ok? <==> ParseMemory(size.value).Ok? && world.created && world.lengthSet && world.mkfsFound
                    && world.mkfsOk && world.dirMade)
      ensures r != Err(AlreadyExists) && size.Some? && ParseMemory(size.value).Ok? ==>
        var bytes := ParseMemory(size.value).value;
        trace == old(trace)
          + (if world.created then [Sizes(Some(0), None)] else [])
          + (if world.created && world.lengthSet then [Sizes(Some(bytes), None)] else [])
          + (if !(world.created && world.lengthSet && world.mkfsFound) then []
             else if world.mkfsOk then [Sizes(Some(bytes), Some(Min(world.mkfsSize, bytes)))]
             else if world.removed then [Sizes(None, None)] else [])
      ensures trace != old(trace) ==> trace != [] && sizes == trace[|trace| - 1]
    {
      if dir || sizes.file.Some? {
        return Err(AlreadyExists);
      }
      if size.None? {
        if !world.dirMade {
          return Err(FileFailed);
        }
        dir := true;
        return Ok(());
      }
      var parsed := ParseMemory(size.value);
      if parsed.Err? {
        return Err(BadSize(parsed.error));
      }
      var sizeBytes := parsed.value;
      if !world.created {
        return Err(FileFailed);
      }
      Put(Sizes(Some(0), None));
      if !world.lengthSet {
        return Err(FileFailed);
      }
      Put(Sizes(Some(sizeBytes), None));
      if !world.mkfsFound {
        return Err(ToolMissing);
      }
      if !world.mkfsOk {
        if world.removed {
          Put(Sizes(None, None));
        }
        return Err(ToolFailed);
      }
      Put(Sizes(Some(sizeBytes), Some(Min(world.mkfsSize, sizeBytes))));
      if !world.dirMade {
        return Err(FileFailed);
      }
      dir := true;
      return Ok(());
    }

    /** Growing extends the file before the filesystem, shrinking the filesystem before the file, so at
        every step and at every failure exit the filesystem fits, with one exception. */
    method Resize(size: string, world: ResizeWorld) returns (r: Result<(), VolumeError>)
      requires Valid()
      modifies this
      ensures dir == old(dir)
      ensures Valid() <==> !(old(sizes.file).Some? && ParseMemory(size).Ok?
                             && CutsFilesystem(old(sizes), ParseMemory(size).value, world))
      ensures r == Err(NotSized) <==> old(sizes.file).None?
      ensures old(sizes.file).None? || ParseMemory(size).Err? ==> r.Err? && trace == old(trace) && sizes == old(sizes)
      ensures old(sizes.file).Some? && ParseMemory(size).Ok? ==>
        var bytes, was := ParseMemory(size).value, old(sizes);
        var seen := if world.metaOk then was.file.value else 0;
        && (r.Ok? <==> bytes == seen || AllStepsWork(was, world))
        && trace == old(trace) + if bytes == seen then []
                                 else if bytes > seen then GrowSteps(was, bytes, world)
                                 else ShrinkSteps(was, bytes, world)
      ensures r.Ok? && world.metaOk ==>
        && ParseMemory(size).Ok? && sizes.file == Some(ParseMemory(size).value)
        && (sizes.file.value > old(sizes.file).value ==> sizes.fs == Some(Min(world.grownSize, sizes.file.value)))
        && (sizes.file.value < old(sizes.file).value ==>
              sizes.fs == Some(Min(world.shrunkSize, sizes.file.value / 1024 * 1024)))
        && (sizes.file == old(sizes.file) ==> sizes.fs == old(sizes.fs))
    {
      if sizes.file.None? {
        return Err(NotSized);
      }
      var parsed := ParseMemory(size);
      if parsed.Err? {
        return Err(BadSize(parsed.error));
      }
      var newSize := parsed.value;
      var oldSize := if world.metaOk then sizes.file.value else 0;
      if newSize == oldSize {
        return Ok(());
      }
      if newSize > oldSize {
        r := Grow(newSize, world);
      } else {
        r := Shrink(newSize, world);
      }
    }

    method Grow(newSize: nat, world: ResizeWorld) returns (r: Result<(), VolumeError>)
      requires Valid() && sizes.file.Some?
      modifies this`sizes, this`trace
      ensures Valid() <==>
        !(world.fileOpened && world.lengthSet && old(sizes).fs.Some? && newSize < old(sizes).fs.value)
      ensures r.Ok? <==> AllStepsWork(old(sizes), world)
      ensures r.Ok? ==> sizes == Sizes(Some(newSize), Some(Min(world.grownSize, newSize)))
      ensures trace == old(trace) + GrowSteps(old(sizes), newSize, world)
      ensures sizes == if trace == old(trace) then old(sizes) else trace[|trace| - 1]
      ensures r != Err(NotSized)
    {
      if !world.fileOpened || !world.lengthSet {
        return Err(FileFailed);
      }
      Put(sizes.(file := Some(newSize)));
      ghost var extended := sizes;
      assert trace[|trace| - 1] == extended;
      if !world.fsckFound || !world.resizeFound {
        return Err(ToolMissing);
      }
      if !world.resizeOk || sizes.fs.None? {
        return Err(ToolFailed);
      }
      Put(sizes.(fs := Some(Min(world.grownSize, newSize))));
      assert trace[|trace| - 2] == extended && extended in trace;
      return Ok(());
    }

    method Shrink(newSize: nat, world: ResizeWorld) returns (r: Result<(), VolumeError>)
      requires Valid() && sizes.file.Some? && newSize < sizes.file.value
      modifies this`sizes, this`trace
      ensures Valid()
      ensures r.Ok? <==> AllStepsWork(old(sizes), world)
      ensures r.Ok? ==> sizes == Sizes(Some(newSize), Some(Min(world.shrunkSize, newSize / 1024 * 1024)))
      ensures trace == old(trace) + ShrinkSteps(old(sizes), newSize, world)
      ensures sizes == if trace == old(trace) then old(sizes) else trace[|trace| - 1]
      ensures r != Err(NotSized)
    {
      var newSizeK := newSize / 1024;
      if !world.fsckFound || !world.resizeFound {
        return Err(ToolMissing);
      }
      if !world.resizeOk || sizes.fs.None? {
        return Err(ToolFailed);
      }
      Put(sizes.(fs := Some(Min(world.shrunkSize, newSizeK * 1024))));
      if !world.fileOpened || !world.lengthSet {
        return Err(FileFailed);
      }
      Put(sizes.(file := Some(newSize)));
      return Ok(());
    }
  }

  /** Every command and call of a resize works, on a file that holds a filesystem. */
  predicate AllStepsWork(was: Sizes, world: ResizeWorld) {
    && was.fs.Some? && world.fileOpened && world.lengthSet
    && world.fsckFound && world.resizeFound && world.resizeOk
  }

  /** The sizes after each step of a growth: the file gets the new length, then the filesystem fills it. */
  function GrowSteps(was: Sizes, newSize: nat, world: ResizeWorld): seq<Sizes> {
    (if world.fileOpened && world.lengthSet then [Sizes(Some(newSize), was.fs)] else [])
    + if AllStepsWork(was, world) then [Sizes(Some(newSize), Some(Min(world.grownSize, newSize)))] else []
  }

  /** The sizes after each step of a shrink: the filesystem gets smaller, then the file. */
  function ShrinkSteps(was: Sizes, newSize: nat, world: ResizeWorld): seq<Sizes> {
    var fs := Some(Min(world.shrunkSize, newSize / 1024 * 1024));
    (if was.fs.Some? && world.fsckFound && world.resizeFound && world.resizeOk
     then [Sizes(was.file, fs)] else [])
    + if AllStepsWork(was, world) then [Sizes(Some(newSize), fs)] else []
  }
}
