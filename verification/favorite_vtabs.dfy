/**
 * The list logic of the "FavoriteVTabs" editor window: a favourites list of
 * prefab paths kept in parallel with their loaded references, and a list of
 * textures; both are saved to the editor preferences as `;`-joined strings
 * and read back from them.
 *
 * The asset database is a value: which prefab or texture lies at which path,
 * and which path an asset lies at. `GetPrefabPath` (asset path or prefab
 * instance root lookup) is a function parameter returning `""` for null;
 * `PathsOnlyForGameObjects` states that it gives no path to an object that
 * is not a `GameObject`.
 */
module FavoriteVTabs {
  import opened Wrappers
  import opened Strings
  import opened Lists

  datatype GameObject = GameObject(id: nat)
  datatype Texture = Texture(id: nat)

  /** A `UnityEngine.Object` dragged onto the window. */
  datatype UnityObject =
    | GameObjectRef(go: GameObject)
    | TextureRef(texture: Texture)
    | OtherObject(id: nat)

  /** `draggedObject as GameObject`. */
  function AsGameObject(obj: UnityObject): Option<GameObject> {
    if obj.GameObjectRef? then Some(obj.go) else None
  }

  /** The part of `AssetDatabase` the window uses. */
  datatype AssetDatabase = AssetDatabase(
    prefabAt: map<string, GameObject>,
    textureAt: map<string, Texture>,
    texturePath: map<Texture, string>)
  {
    /** `LoadAssetAtPath<GameObject>(path)`. */
    function LoadPrefab(path: string): Option<GameObject> {
      if path in prefabAt then Some(prefabAt[path]) else None
    }

    /** `LoadAssetAtPath<Texture>(path)`. */
    function LoadTexture(path: string): Option<Texture> {
      if path in textureAt then Some(textureAt[path]) else None
    }

    /** `GetAssetPath(texture)`: empty for null and for textures that are not assets. */
    function AssetPath(texture: Option<Texture>): string {
      if texture.Some? && texture.value in texturePath then texturePath[texture.value] else ""
    }
  }

  /** The editor preference store. */
  class EditorPrefs {
    var values: map<string, string>

    constructor (values: map<string, string>)
      ensures this.values == values
    {
      this.values := values;
    }

    function GetString(key: string, defaultValue: string): string
      reads this
    {
      if key in values then values[key] else defaultValue
    }

    method SetString(key: string, value: string)
      modifies this
      ensures values == old(values)[key := value]
    {
      values := values[key := value];
    }
  }

  const PrefabsKey: string := "VTabs_Prefabs"
  const TexturesKey: string := "VTabs_Textures"

  // ---------------------------------------------------------------------------
  // What the operations compute

  /** The paths `LoadPrefabs` reads from a saved string: nothing from an empty
      string, else the non-empty `;` pieces in order. */
  function LoadedPaths(saved: string): (paths: seq<string>)
    ensures forall i :: 0 <= i < |paths| ==> IsToken(paths[i], ';')
  {
    if saved == "" then [] else SplitNonEmpty(saved, ';')
  }

  /** The reference `LoadPrefabs` loads for each path. */
  function References(db: AssetDatabase, paths: seq<string>): seq<Option<GameObject>> {
    seq(|paths|, i requires 0 <= i < |paths| => db.LoadPrefab(paths[i]))
  }

  /** The non-empty prefab paths of the dropped objects, in drop order. */
  function DroppedPaths(dropped: seq<UnityObject>, getPrefabPath: UnityObject -> string): seq<string>
    decreases |dropped|
  {
    if dropped == [] then []
    else
      var path := getPrefabPath(dropped[|dropped| - 1]);
      DroppedPaths(dropped[..|dropped| - 1], getPrefabPath) + (if path == "" then [] else [path])
  }

  /** The two prefab lists after a drop, one dropped object at a time: an
      object whose prefab path is non-empty and not listed yet is appended
      with its reference (the object as a `GameObject`). */
  function PrefabDrop(paths: seq<string>, refs: seq<Option<GameObject>>, dropped: seq<UnityObject>,
                      getPrefabPath: UnityObject -> string): (seq<string>, seq<Option<GameObject>>)
    decreases |dropped|
  {
    if dropped == [] then (paths, refs)
    else
      var obj := dropped[|dropped| - 1];
      var (p, r) := PrefabDrop(paths, refs, dropped[..|dropped| - 1], getPrefabPath);
      var path := getPrefabPath(obj);
      if path != "" && path !in p then (p + [path], r + [AsGameObject(obj)]) else (p, r)
  }

  /** What `GetPrefabPath` guarantees: an object that is not a `GameObject`
      has no prefab path. */
  ghost predicate PathsOnlyForGameObjects(getPrefabPath: UnityObject -> string) {
    forall obj: UnityObject :: !obj.GameObjectRef? ==> getPrefabPath(obj) == ""
  }

  /** The textures among the dropped objects, in drop order. */
  function DroppedTextures(dropped: seq<UnityObject>): seq<Option<Texture>>
    decreases |dropped|
  {
    if dropped == [] then []
    else
      var obj := dropped[|dropped| - 1];
      DroppedTextures(dropped[..|dropped| - 1]) + (if obj.TextureRef? then [Some(obj.texture)] else [])
  }

  /** The texture list after a drop, one dropped object at a time: a
      texture not listed yet is appended. */
  function TextureDrop(textures: seq<Option<Texture>>, dropped: seq<UnityObject>): seq<Option<Texture>>
    decreases |dropped|
  {
    if dropped == [] then textures
    else
      var obj := dropped[|dropped| - 1];
      var t := TextureDrop(textures, dropped[..|dropped| - 1]);
      if obj.TextureRef? && Some(obj.texture) !in t then t + [Some(obj.texture)] else t
  }

  /** The texture list after `LoadTextures` reads the given paths, one at a
      time: a texture found at the path and not listed yet is appended. */
  function TextureLoad(textures: seq<Option<Texture>>, db: AssetDatabase, paths: seq<string>): seq<Option<Texture>>
    decreases |paths|
  {
    if paths == [] then textures
    else
      var t := TextureLoad(textures, db, paths[..|paths| - 1]);
      var texture := db.LoadTexture(paths[|paths| - 1]);
      if texture.Some? && texture !in t then t + [texture] else t
  }

  /** The textures `LoadTextures` finds at the given paths, skipping misses. */
  function LoadedTextures(db: AssetDatabase, paths: seq<string>): seq<Option<Texture>>
    decreases |paths|
  {
    if paths == [] then []
    else
      var texture := db.LoadTexture(paths[|paths| - 1]);
      LoadedTextures(db, paths[..|paths| - 1]) + (if texture.Some? then [texture] else [])
  }

  /** The asset paths `SaveTextures` collects: the non-empty ones, in list order. */
  function TexturePaths(db: AssetDatabase, textures: seq<Option<Texture>>): seq<string>
    decreases |textures|
  {
    if textures == [] then []
    else
      var path := db.AssetPath(textures[|textures| - 1]);
      TexturePaths(db, textures[..|textures| - 1]) + (if path == "" then [] else [path])
  }

  /** `prefabReferences` after the alignment loops: padded with nulls or cut
      from the end to `count` entries. */
  function Aligned(refs: seq<Option<GameObject>>, count: nat): seq<Option<GameObject>>
  {
    if |refs| < count then refs + seq(count - |refs|, _ => None) else refs[..count]
  }

  // ---------------------------------------------------------------------------
  // The window

  class CustomEditorFavoriteVTabs {
    var prefabPaths: seq<string>
    var prefabReferences: seq<Option<GameObject>>
    var textures: seq<Option<Texture>>
    const prefs: EditorPrefs

    /** The two prefab lists have one entry per favourite. */
    predicate ListsAligned()
      reads this
    {
      |prefabReferences| == |prefabPaths|
    }

    constructor (prefs: EditorPrefs)
      ensures this.prefs == prefs
      ensures prefabPaths == [] && prefabReferences == [] && textures == []
    {
      this.prefs := prefs;
      prefabPaths, prefabReferences, textures := [], [], [];
    }

    /** `OnEnable`: load both lists from the preferences. */
    method OnEnable(db: AssetDatabase)
      modifies this
      ensures prefabPaths == LoadedPaths(prefs.GetString(PrefabsKey, ""))
      ensures prefabReferences == References(db, prefabPaths)
      ensures var saved := prefs.GetString(TexturesKey, "");
        textures == if saved == "" then old(textures) else TextureLoad(old(textures), db, Split(saved, ';'))
    {
      LoadPrefabs(db);
      LoadTextures(db);
    }

    /** `SavePrefabs`: store the paths joined with `;`. */
    method SavePrefabs()
      modifies prefs
      ensures prefs.values == old(prefs.values)[PrefabsKey := Join(";", prefabPaths)]
    {
      prefs.SetString(PrefabsKey, Join(";", prefabPaths));
    }

    /** `LoadPrefabs`: clear both lists, then add each non-empty saved path
        together with the prefab loaded from it. */
    method LoadPrefabs(db: AssetDatabase)
      modifies this
      ensures prefabPaths == LoadedPaths(prefs.GetString(PrefabsKey, ""))
      ensures prefabReferences == References(db, prefabPaths)
      ensures ListsAligned()
      ensures textures == old(textures)
    {
      prefabPaths := [];
      prefabReferences := [];
      var savedPaths := prefs.GetString(PrefabsKey, "");
      if savedPaths != "" {
        var paths := Split(savedPaths, ';');
        for k := 0 to |paths|
          invariant prefabPaths == NonEmpty(paths[..k])
          invariant prefabReferences == References(db, prefabPaths)
          invariant textures == old(textures)
        {
          var path := paths[k];
          NonEmptySnoc(paths[..k], path);
          assert paths[..k + 1] == paths[..k] + [path];
          if path != "" {
            prefabPaths := prefabPaths + [path];
            var prefab := db.LoadPrefab(path);
            prefabReferences := prefabReferences + [prefab];
          }
        }
        assert paths[..|paths|] == paths;
      }
    }

    /** The loops at the top of the prefab view: pad `prefabReferences` with
        nulls, or drop its last entries, until it is as long as `prefabPaths`. */
    method AlignReferences()
      modifies this
      ensures prefabReferences == Aligned(old(prefabReferences), |prefabPaths|)
      ensures ListsAligned()
      ensures prefabPaths == old(prefabPaths) && textures == old(textures)
    {
      while |prefabReferences| < |prefabPaths|
        invariant |old(prefabReferences)| < |prefabPaths| ==>
          |old(prefabReferences)| <= |prefabReferences| <= |prefabPaths| &&
          prefabReferences == old(prefabReferences) + seq(|prefabReferences| - |old(prefabReferences)|, _ => None)
        invariant |old(prefabReferences)| >= |prefabPaths| ==> prefabReferences == old(prefabReferences)
        invariant prefabPaths == old(prefabPaths) && textures == old(textures)
        decreases |prefabPaths| - |prefabReferences|
      {
        prefabReferences := prefabReferences + [None];
      }
      while |prefabReferences| > |prefabPaths|
        invariant |old(prefabReferences)| < |prefabPaths| ==>
          prefabReferences == old(prefabReferences) + seq(|prefabPaths| - |old(prefabReferences)|, _ => None)
        invariant |old(prefabReferences)| >= |prefabPaths| ==>
          |prefabPaths| <= |prefabReferences| <= |old(prefabReferences)| &&
          prefabReferences == old(prefabReferences)[..|prefabReferences|]
        invariant prefabPaths == old(prefabPaths) && textures == old(textures)
        decreases |prefabReferences|
      {
        prefabReferences := prefabReferences[..|prefabReferences| - 1];
      }
    }

    /** Row `i` of the prefab view: a null reference is reloaded from its path. */
    method ResolveReference(db: AssetDatabase, i: nat)
      requires i < |prefabPaths| && ListsAligned()
      modifies this
      ensures prefabPaths == old(prefabPaths) && textures == old(textures)
      ensures prefabReferences == old(prefabReferences)[i :=
        if old(prefabReferences)[i].None? then db.LoadPrefab(prefabPaths[i]) else old(prefabReferences)[i]]
    {
      if prefabReferences[i].None? {
        prefabReferences := prefabReferences[i := db.LoadPrefab(prefabPaths[i])];
      }
    }

    /** Row `i` of the prefab view after the object field: a changed, non-null
        reference with a non-empty prefab path replaces both entries of the
        row, and the list is saved. No duplicate check is made here. */
    method ReplacePrefab(i: nat, fieldChanged: bool, newReference: Option<GameObject>,
                         getPrefabPath: UnityObject -> string)
      requires i < |prefabPaths| && ListsAligned()
      modifies this, prefs
      ensures var replace := fieldChanged && newReference.Some? && getPrefabPath(GameObjectRef(newReference.value)) != "";
        if replace then
          prefabPaths == old(prefabPaths)[i := getPrefabPath(GameObjectRef(newReference.value))] &&
          prefabReferences == old(prefabReferences)[i := newReference] &&
          prefs.values == old(prefs.values)[PrefabsKey := Join(";", prefabPaths)]
        else
          prefabPaths == old(prefabPaths) && prefabReferences == old(prefabReferences) &&
          prefs.values == old(prefs.values)
      ensures ListsAligned() && textures == old(textures)
    {
      if fieldChanged && newReference.Some? {
        var newPath := getPrefabPath(GameObjectRef(newReference.value));
        if newPath != "" {
          prefabPaths := prefabPaths[i := newPath];
          prefabReferences := prefabReferences[i := newReference];
          SavePrefabs();
        }
      }
    }

    /** The "Remove" button of row `i`: remove the row from both lists and save. */
    method RemovePrefab(i: nat)
      requires i < |prefabPaths| && i < |prefabReferences|
      modifies this, prefs
      ensures prefabPaths == old(prefabPaths)[..i] + old(prefabPaths)[i + 1..]
      ensures prefabReferences == old(prefabReferences)[..i] + old(prefabReferences)[i + 1..]
      ensures old(ListsAligned()) ==> ListsAligned()
      ensures prefs.values == old(prefs.values)[PrefabsKey := Join(";", prefabPaths)]
      ensures textures == old(textures)
    {
      prefabPaths := prefabPaths[..i] + prefabPaths[i + 1..];
      prefabReferences := prefabReferences[..i] + prefabReferences[i + 1..];
      SavePrefabs();
    }

    /** A completed prefab drop: each dropped object whose prefab path is
        non-empty and not listed yet is appended with its reference; the list
        is saved afterwards whether or not anything was added. */
    method DropPrefabs(dropped: seq<UnityObject>, getPrefabPath: UnityObject -> string)
      requires PathsOnlyForGameObjects(getPrefabPath)
      modifies this, prefs
      ensures (prefabPaths, prefabReferences) == PrefabDrop(old(prefabPaths), old(prefabReferences), dropped, getPrefabPath)
      ensures |prefabReferences| - |old(prefabReferences)| == |prefabPaths| - |old(prefabPaths)|
      ensures forall k :: |old(prefabReferences)| <= k < |prefabReferences| ==>
        prefabReferences[k].Some? &&
        getPrefabPath(GameObjectRef(prefabReferences[k].value)) == prefabPaths[k - |old(prefabReferences)| + |old(prefabPaths)|]
      ensures prefabPaths == old(prefabPaths) + Fresh(old(prefabPaths), DroppedPaths(dropped, getPrefabPath))
      ensures old(ListsAligned()) ==> ListsAligned()
      ensures NoDup(old(prefabPaths)) ==> NoDup(prefabPaths)
      ensures prefs.values == old(prefs.values)[PrefabsKey := Join(";", prefabPaths)]
      ensures textures == old(textures)
    {
      for k := 0 to |dropped|
        invariant (prefabPaths, prefabReferences) == PrefabDrop(old(prefabPaths), old(prefabReferences), dropped[..k], getPrefabPath)
        invariant textures == old(textures) && prefs.values == old(prefs.values)
      {
        var draggedObject := dropped[k];
        var prefabPath := getPrefabPath(draggedObject);
        assert dropped[..k + 1][..k] == dropped[..k];
        if prefabPath != "" && prefabPath !in prefabPaths {
          prefabPaths := prefabPaths + [prefabPath];
          prefabReferences := prefabReferences + [AsGameObject(draggedObject)];
        }
      }
      assert dropped[..|dropped|] == dropped;
      PrefabDropAppendsFresh(old(prefabPaths), old(prefabReferences), dropped, getPrefabPath);
      PrefabDropKeepsPairs(old(prefabPaths), old(prefabReferences), dropped, getPrefabPath);
      PrefabDropAppendsDropped(old(prefabPaths), old(prefabReferences), dropped, getPrefabPath);
      if NoDup(old(prefabPaths)) {
        AppendFreshNoDup(old(prefabPaths), DroppedPaths(dropped, getPrefabPath));
      }
      SavePrefabs();
    }

    /** "Clear PrefabsList": empty both lists and save. */
    method ClearPrefabs()
      modifies this, prefs
      ensures prefabPaths == [] && prefabReferences == [] && textures == old(textures)
      ensures prefs.values == old(prefs.values)[PrefabsKey := ""]
    {
      prefabReferences := [];
      prefabPaths := [];
      SavePrefabs();
    }

    /** `SaveTextures`: store the non-empty asset paths of the textures, joined with `;`. */
    method SaveTextures(db: AssetDatabase)
      modifies prefs
      ensures prefs.values == old(prefs.values)[TexturesKey := Join(";", TexturePaths(db, textures))]
    {
      var texturePaths := [];
      for k := 0 to |textures|
        invariant texturePaths == TexturePaths(db, textures[..k])
        invariant prefs.values == old(prefs.values)
      {
        var path := db.AssetPath(textures[k]);
        TexturePathsStep(db, textures, k);
        if path != "" {
          texturePaths := texturePaths + [path];
        }
      }
      assert textures[..|textures|] == textures;
      prefs.SetString(TexturesKey, Join(";", texturePaths));
    }

    /** `LoadTextures`: without clearing the list, append every texture found
        at a saved path that is not in the list yet. */
    method LoadTextures(db: AssetDatabase)
      modifies this
      ensures var saved := prefs.GetString(TexturesKey, "");
        textures == if saved == "" then old(textures) else TextureLoad(old(textures), db, Split(saved, ';'))
      ensures var saved := prefs.GetString(TexturesKey, "");
        textures == old(textures) + (if saved == "" then [] else Fresh(old(textures), LoadedTextures(db, Split(saved, ';'))))
      ensures prefabPaths == old(prefabPaths) && prefabReferences == old(prefabReferences)
    {
      var texturePaths := prefs.GetString(TexturesKey, "");
      if texturePaths != "" {
        var paths := Split(texturePaths, ';');
        for k := 0 to |paths|
          invariant textures == TextureLoad(old(textures), db, paths[..k])
          invariant prefabPaths == old(prefabPaths) && prefabReferences == old(prefabReferences)
        {
          var texture := db.LoadTexture(paths[k]);
          assert paths[..k + 1][..k] == paths[..k];
          if texture.Some? && texture !in textures {
            textures := textures + [texture];
          }
        }
        assert paths[..|paths|] == paths;
        TextureLoadAppendsFresh(old(textures), db, paths);
      }
    }

    /** Row `i` of the texture view: a different texture (null included)
        from the object field replaces the entry, and the list is saved. */
    method ReplaceTexture(db: AssetDatabase, i: nat, newTexture: Option<Texture>)
      requires i < |textures|
      modifies this, prefs
      ensures textures == old(textures)[i := newTexture]
      ensures newTexture != old(textures)[i] ==>
        prefs.values == old(prefs.values)[TexturesKey := Join(";", TexturePaths(db, textures))]
      ensures newTexture == old(textures)[i] ==> prefs.values == old(prefs.values)
      ensures prefabPaths == old(prefabPaths) && prefabReferences == old(prefabReferences)
    {
      if newTexture != textures[i] {
        textures := textures[i := newTexture];
        SaveTextures(db);
      }
    }

    /** The "Remove" button of texture row `i`: remove the entry and save. */
    method RemoveTexture(db: AssetDatabase, i: nat)
      requires i < |textures|
      modifies this, prefs
      ensures textures == old(textures)[..i] + old(textures)[i + 1..]
      ensures prefs.values == old(prefs.values)[TexturesKey := Join(";", TexturePaths(db, textures))]
      ensures prefabPaths == old(prefabPaths) && prefabReferences == old(prefabReferences)
    {
      textures := textures[..i] + textures[i + 1..];
      SaveTextures(db);
    }

    /** A completed texture drop: each dropped texture not in the list yet is
        appended, and the list is saved after every addition. */
    method DropTextures(db: AssetDatabase, dropped: seq<UnityObject>)
      modifies this, prefs
      ensures textures == TextureDrop(old(textures), dropped)
      ensures textures == old(textures) + Fresh(old(textures), DroppedTextures(dropped))
      ensures NoDup(old(textures)) ==> NoDup(textures)
      ensures textures == old(textures) ==> prefs.values == old(prefs.values)
      ensures textures != old(textures) ==>
        prefs.values == old(prefs.values)[TexturesKey := Join(";", TexturePaths(db, textures))]
      ensures prefabPaths == old(prefabPaths) && prefabReferences == old(prefabReferences)
    {
      for k := 0 to |dropped|
        invariant textures == TextureDrop(old(textures), dropped[..k])
        invariant |textures| >= |old(textures)|
        invariant textures == old(textures) ==> prefs.values == old(prefs.values)
        invariant textures != old(textures) ==>
          prefs.values == old(prefs.values)[TexturesKey := Join(";", TexturePaths(db, textures))]
        invariant prefabPaths == old(prefabPaths) && prefabReferences == old(prefabReferences)
      {
        var draggedObject := dropped[k];
        assert dropped[..k + 1][..k] == dropped[..k];
        if draggedObject.TextureRef? {
          var texture := Some(draggedObject.texture);
          if texture !in textures {
            textures := textures + [texture];
            ghost var saved := prefs.values;
            SaveTextures(db);
            SaveOverwrites(old(prefs.values), saved, TexturesKey, prefs.values);
          }
        }
      }
      assert dropped[..|dropped|] == dropped;
      TextureDropAppendsFresh(old(textures), dropped);
      if NoDup(old(textures)) {
        AppendFreshNoDup(old(textures), DroppedTextures(dropped));
      }
    }

    /** "Clear TextureList": empty the list and save. */
    method ClearTextures(db: AssetDatabase)
      modifies this, prefs
      ensures textures == [] && prefabPaths == old(prefabPaths) && prefabReferences == old(prefabReferences)
      ensures prefs.values == old(prefs.values)[TexturesKey := ""]
    {
      textures := [];
      SaveTextures(db);
    }
  }

  // ---------------------------------------------------------------------------
  // Properties

  /** A save after earlier saves to the same key leaves only its own value. */
  lemma SaveOverwrites(start: map<string, string>, before: map<string, string>, key: string, after: map<string, string>)
    requires before == start || (key in before && before == start[key := before[key]])
    requires key in after && after == before[key := after[key]]
    ensures after == start[key := after[key]]
  {
  }

  // Each fold, extended by one more element.

  /** `LoadTextures` appends exactly the textures found at the paths that
      are not listed yet, first occurrence first. */
  lemma {:induction false} TextureLoadAppendsFresh(textures: seq<Option<Texture>>, db: AssetDatabase, paths: seq<string>)
    ensures TextureLoad(textures, db, paths) == textures + Fresh(textures, LoadedTextures(db, paths))
    decreases |paths|
  {
    if paths != [] {
      var init := paths[..|paths| - 1];
      var texture := db.LoadTexture(paths[|paths| - 1]);
      var before := LoadedTextures(db, init);
      TextureLoadAppendsFresh(textures, db, init);
      if texture.Some? {
        assert LoadedTextures(db, paths) == before + [texture];
        FreshSnoc(textures, before, texture);
      } else {
        assert LoadedTextures(db, paths) == before;
      }
    }
  }

  lemma TexturePathsStep(db: AssetDatabase, textures: seq<Option<Texture>>, k: nat)
    requires k < |textures|
    ensures TexturePaths(db, textures[..k + 1])
         == TexturePaths(db, textures[..k]) + (if db.AssetPath(textures[k]) == "" then [] else [db.AssetPath(textures[k])])
  {
    assert textures[..k + 1][..k] == textures[..k];
  }

  /** A prefab drop appends to the paths exactly the dropped paths not
      listed yet, first occurrence first. */
  lemma {:induction false} PrefabDropAppendsFresh(paths: seq<string>, refs: seq<Option<GameObject>>,
                                                 dropped: seq<UnityObject>, getPrefabPath: UnityObject -> string)
    ensures PrefabDrop(paths, refs, dropped, getPrefabPath).0 == paths + Fresh(paths, DroppedPaths(dropped, getPrefabPath))
    decreases |dropped|
  {
    if dropped != [] {
      var init := dropped[..|dropped| - 1];
      var path := getPrefabPath(dropped[|dropped| - 1]);
      var before := DroppedPaths(init, getPrefabPath);
      PrefabDropAppendsFresh(paths, refs, init, getPrefabPath);
      if path != "" {
        assert DroppedPaths(dropped, getPrefabPath) == before + [path];
        FreshSnoc(paths, before, path);
      } else {
        assert DroppedPaths(dropped, getPrefabPath) == before;
      }
    }
  }

  /** A prefab drop keeps the old entries of both lists and appends one
      reference per appended path. */
  lemma {:induction false} PrefabDropKeepsPairs(paths: seq<string>, refs: seq<Option<GameObject>>,
                                               dropped: seq<UnityObject>, getPrefabPath: UnityObject -> string)
    ensures var (p, r) := PrefabDrop(paths, refs, dropped, getPrefabPath);
      |p| >= |paths| && |r| - |refs| == |p| - |paths| && p[..|paths|] == paths && r[..|refs|] == refs
    decreases |dropped|
  {
    if dropped != [] {
      var init := dropped[..|dropped| - 1];
      var obj := dropped[|dropped| - 1];
      PrefabDropKeepsPairs(paths, refs, init, getPrefabPath);
      var (p, r) := PrefabDrop(paths, refs, init, getPrefabPath);
      var path := getPrefabPath(obj);
      if path != "" && path !in p {
        assert (p + [path])[..|paths|] == p[..|paths|];
        assert (r + [AsGameObject(obj)])[..|refs|] == r[..|refs|];
      }
    }
  }

  /** Every reference a prefab drop appends is a dropped `GameObject` (never
      null), and its prefab path is the path appended beside it. */
  lemma {:induction false} PrefabDropAppendsDropped(paths: seq<string>, refs: seq<Option<GameObject>>,
                                                   dropped: seq<UnityObject>, getPrefabPath: UnityObject -> string)
    requires PathsOnlyForGameObjects(getPrefabPath)
    ensures var (p, r) := PrefabDrop(paths, refs, dropped, getPrefabPath);
      |r| - |refs| == |p| - |paths| &&
      forall k :: |refs| <= k < |r| ==>
        r[k].Some? && getPrefabPath(GameObjectRef(r[k].value)) == p[k - |refs| + |paths|]
    decreases |dropped|
  {
    if dropped != [] {
      var init := dropped[..|dropped| - 1];
      var obj := dropped[|dropped| - 1];
      PrefabDropAppendsDropped(paths, refs, init, getPrefabPath);
      PrefabDropKeepsPairs(paths, refs, init, getPrefabPath);
      var (p, r) := PrefabDrop(paths, refs, init, getPrefabPath);
      var path := getPrefabPath(obj);
      if path != "" && path !in p {
        assert obj.GameObjectRef?;
        assert AsGameObject(obj) == Some(obj.go) && GameObjectRef(obj.go) == obj;
        var r' := r + [AsGameObject(obj)];
        var p' := p + [path];
        forall k | |refs| <= k < |r'|
          ensures r'[k].Some? && getPrefabPath(GameObjectRef(r'[k].value)) == p'[k - |refs| + |paths|]
        {
          if k < |r| {
            assert r'[k] == r[k] && p'[k - |refs| + |paths|] == p[k - |refs| + |paths|];
          }
        }
      }
    }
  }

  /** A texture drop appends exactly the dropped textures not listed yet,
      first occurrence first. */
  lemma {:induction false} TextureDropAppendsFresh(textures: seq<Option<Texture>>, dropped: seq<UnityObject>)
    ensures TextureDrop(textures, dropped) == textures + Fresh(textures, DroppedTextures(dropped))
    decreases |dropped|
  {
    if dropped != [] {
      var init := dropped[..|dropped| - 1];
      var obj := dropped[|dropped| - 1];
      var before := DroppedTextures(init);
      TextureDropAppendsFresh(textures, init);
      if obj.TextureRef? {
        assert DroppedTextures(dropped) == before + [Some(obj.texture)];
        FreshSnoc(textures, before, Some(obj.texture));
      } else {
        assert DroppedTextures(dropped) == before;
      }
    }
  }

  /** A path is among the dropped paths exactly when some dropped object has
      it as its non-empty prefab path. */
  lemma {:induction false} DroppedPathsMember(dropped: seq<UnityObject>, getPrefabPath: UnityObject -> string, p: string)
    ensures p in DroppedPaths(dropped, getPrefabPath) <==>
      p != "" && exists k :: 0 <= k < |dropped| && getPrefabPath(dropped[k]) == p
    decreases |dropped|
  {
    if dropped != [] {
      var init := dropped[..|dropped| - 1];
      DroppedPathsMember(init, getPrefabPath, p);
      if exists k :: 0 <= k < |dropped| && getPrefabPath(dropped[k]) == p {
        var k :| 0 <= k < |dropped| && getPrefabPath(dropped[k]) == p;
        if k < |init| {
          assert getPrefabPath(init[k]) == p;
        }
      }
    }
  }

  /** Saving then loading the prefab list gives it back exactly when every
      path is non-empty and free of `;`. */
  lemma PrefabsRoundTrip(paths: seq<string>)
    ensures LoadedPaths(Join(";", paths)) == paths <==> forall i :: 0 <= i < |paths| ==> IsToken(paths[i], ';')
  {
    SplitNonEmptyJoin(paths, ';');
    if paths != [] && Join(";", paths) == "" {
      assert |paths[0]| <= |Join(";", paths)|;
    }
  }

  lemma {:induction false} JoinLength(paths: seq<string>)
    requires paths != []
    ensures |paths[0]| <= |Join(";", paths)|
  {
  }

  /** A texture is loaded back from its own asset path. */
  predicate LoadsBack(db: AssetDatabase, texture: Option<Texture>) {
    var path := db.AssetPath(texture);
    IsToken(path, ';') && db.LoadTexture(path) == texture
  }

  /** Every texture that loads back has a saved path, in list order. */
  lemma {:induction false} SavedPathsOfAll(db: AssetDatabase, textures: seq<Option<Texture>>)
    requires forall i :: 0 <= i < |textures| ==> LoadsBack(db, textures[i])
    ensures |TexturePaths(db, textures)| == |textures|
    ensures forall i :: 0 <= i < |textures| ==> TexturePaths(db, textures)[i] == db.AssetPath(textures[i])
    decreases |textures|
  {
    if textures != [] {
      SavedPathsOfAll(db, textures[..|textures| - 1]);
    }
  }

  /** Loading the saved paths of distinct textures that load back, into an
      empty list, yields those textures in order. */
  lemma {:induction false} ReloadSaved(db: AssetDatabase, textures: seq<Option<Texture>>)
    requires NoDup(textures)
    requires forall i :: 0 <= i < |textures| ==> LoadsBack(db, textures[i])
    ensures TextureLoad([], db, TexturePaths(db, textures)) == textures
    decreases |textures|
  {
    if textures != [] {
      var init := textures[..|textures| - 1];
      var last := textures[|textures| - 1];
      ReloadSaved(db, init);
      var paths := TexturePaths(db, textures);
      assert paths == TexturePaths(db, init) + [db.AssetPath(last)];
      assert paths[..|paths| - 1] == TexturePaths(db, init);
      assert last !in init by {
        forall i | 0 <= i < |init| ensures init[i] != last {
          assert init[i] == textures[i];
        }
      }
    }
  }

  /** The saved text of a non-empty list of textures that load back is not
      empty and splits back into the saved paths. */
  lemma SavedTextSplits(db: AssetDatabase, textures: seq<Option<Texture>>)
    requires textures != []
    requires forall i :: 0 <= i < |textures| ==> LoadsBack(db, textures[i])
    ensures Join(";", TexturePaths(db, textures)) != ""
    ensures Split(Join(";", TexturePaths(db, textures)), ';') == TexturePaths(db, textures)
  {
    var paths := TexturePaths(db, textures);
    SavedPathsOfAll(db, textures);
    assert LoadsBack(db, textures[0]);
    forall i | 0 <= i < |paths| ensures ';' !in paths[i] {
      assert LoadsBack(db, textures[i]);
    }
    SplitJoin(paths, ';');
    JoinLength(paths);
  }

  /** A window that saves a list of distinct textures, each loading back from
      its own asset path, and a fresh window that then loads the textures,
      ends with the same list. */
  lemma TexturesRoundTrip(db: AssetDatabase, textures: seq<Option<Texture>>)
    requires NoDup(textures)
    requires forall i :: 0 <= i < |textures| ==> LoadsBack(db, textures[i])
    ensures var saved := Join(";", TexturePaths(db, textures));
      (if saved == "" then [] else TextureLoad([], db, Split(saved, ';'))) == textures
  {
    ReloadSaved(db, textures);
    if textures != [] {
      SavedTextSplits(db, textures);
    } else {
      assert TexturePaths(db, textures) == [];
    }
  }
}
