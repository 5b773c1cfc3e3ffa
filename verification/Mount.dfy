/** From `mkfs` to reading a file: the volume that `mkfs` leaves on a device is one that the file operations work on. */
module Mount {
  import opened BlockTree
  import opened BufferCache
  import opened Devices
  import opened DiskBlocks
  import opened FileBlocks
  import opened FileData
  import opened FileSystem
  import opened Mkfs
  import opened Options
  import opened Words

  /** What the device says of itself is the super block of a volume. */
  ghost predicate Mountable(disk: seq<Block>) {
    && 0 < |disk|
    && var s := ReadSuper(disk[0]);
    s.inodes < |disk| && TreeOk(disk, map[0 := ReadInode(disk[s.inodes], 0)], s)
  }

  /** `read_meta_data`, apart from errors of the device: it succeeds exactly if the magic number is one of two. */
  method ReadMetaData(b: Block) returns (r: Option<Super>)
    ensures r.Some? <==> Word(b, 127) == 0xAA554d57 || Word(b, 127) == 0x00004d57
    ensures r.Some? ==>
              && r.value.totalBlocks == Word(b, 120) && r.value.inodeBitmap == Word(b, 121) && r.value.inodes == Word(b, 122)
              && r.value.numInodes == Word(b, 123) && r.value.dataBitmap == Word(b, 124) && r.value.data == Word(b, 125)
              && r.value.dataSize == Word(b, 126)
  {
    if Word(b, 127) != FS_BOOT_MAGIC && Word(b, 127) != FS_NOBOOT_MAGIC {
      return None;
    }
    r := Some(ReadSuper(b));
  }

  /** A volume with an empty cache in front of it, and the inode of its root directory. */
  method Mounted(disk: seq<Block>, num: nat, budget: nat) returns (v: Option<Volume>)
    requires Mountable(disk) && 4 <= budget <= NR_BUFFERS
    ensures v.Some? <==> Word(disk[0], 127) == 0xAA554d57 || Word(disk[0], 127) == 0x00004d57
    ensures v.Some? ==>
              && var vol := v.value;
              && fresh(vol) && fresh(vol.dev) && fresh(vol.dev.cache) && vol.Valid() && vol.Room(4) && vol.dev.held == []
              && vol.dev.budget == budget && vol.dev.disk == disk && vol.dev.sup == ReadSuper(disk[0])
              && vol.inodes == map[0 := ReadInode(disk[ReadSuper(disk[0]).inodes], 0)]
  {
    hide TreeOk, ReadInode, Word;
    var s := ReadMetaData(disk[0]);
    if s.None? {
      return None;
    }
    var blocks: Disk := map b: nat | b < |disk| :: Key(num, b) := disk[b];
    var cache := new Cache(blocks);
    forall b: nat | b < |disk|
      ensures Shows(cache.disk, cache.view, num, disk, b)
    {
      assert Key(num, b) in blocks;
    }
    var dev := new Device(s.value, cache, num, disk, budget);
    var vol := new Volume(dev, map[0 := ReadInode(disk[s.value.inodes], 0)]);
    v := Some(vol);
  }

  /** A new volume has one of the magic numbers. */
  lemma FreshIsMountable(disk: seq<Block>, sup: Super)
    requires FreshVolume(disk, sup)
    ensures Mountable(disk) && Word(disk[0], 127) == 0xAA554d57 && ReadSuper(disk[0]) == sup
    ensures ReadInode(disk[sup.inodes], 0) == RootInode(sup.data)
  {
  }

  lemma RootContents(disk: seq<Block>, sup: Super)
    requires FreshVolume(disk, sup)
    ensures Contents(disk, map[0 := RootInode(sup.data)], 0) == RootDirectory()[..DIR_ENTRY_SIZE * 2]
  {
    hide TreeOk, ReadInode, ReadSuper, RootDirectory;
    var inos := map[0 := RootInode(sup.data)];
    var s := Contents(disk, inos, 0);
    forall i | 0 <= i < |s|
      ensures s[i] == RootDirectory()[i]
    {
      assert i / FS_BLKSIZ == 0 && LeafPath(0) == [0];
      RootPtr(disk, sup.data, [0]);
      RootBlockInData(disk, sup);
    }
  }

  lemma RootBlockInData(disk: seq<Block>, sup: Super)
    requires FreshVolume(disk, sup)
    ensures 0 < sup.data < |disk|
  {
  }

  /** On any device that is large enough: make a file system, mount it with four buffers sure, and read the root
      directory through the cache. */
  method ReadNewRoot(blocks: nat, reserved: nat, modtime: nat, bootCode: seq<byte>) returns (buf: seq<byte>)
    requires reserved + 11 <= blocks < WORD_LIMIT && Layout(blocks, reserved).dataSize < SIGNED_LIMIT
    requires modtime < WORD_LIMIT && |bootCode| == BOOT_CODE_SIZE
    ensures |buf| == 64 && forall i :: 0 <= i < 64 ==> buf[i] == if i == 0 || i == 32 || i == 33 then 46 else 0
  {
    RootDirectoryIs();
    hide TreeOk, Layout, FreshVolume, RootDirectory, Contents, Device.Ready, ReadInode, ReadSuper, RootInode, Word;
    var disk := new Block[blocks];
    ghost var sup := Mkfs.Mkfs(disk, reserved, modtime, bootCode);
    FreshIsMountable(disk[..], sup);
    var mounted := Mounted(disk[..], 0, 4);
    var v := mounted.value;
    RootContents(disk[..], sup);
    var h := new Handle(0, true, false);
    var r;
    buf, r := v.ReadFile(h, FS_BLKSIZ);
  }
}
