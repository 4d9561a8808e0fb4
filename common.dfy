/** Paths, the error taxonomy of the pipeline and the result wrappers every module shares. */
module Common {

  /** A folder, as its path segments below the workspace root (for example ["Mask", "Inputs", "TCD"]). */
  type Folder = seq<string>

  /** A file: the folder it is listed in and its base name. */
  datatype FilePath = FilePath(folder: Folder, name: string)

  /** What can go wrong, in the terms of the collaborators that raise it. */
  datatype Error =
    | NameTooShort(name: string)           // `name.split("_", n)[n]` raises IndexError
    | FolderNotFound(folder: Folder)       // `os.listdir` of a missing folder
    | RasterNotFound(path: FilePath)       // the raster engine cannot load a layer
    | TableNotFound(path: FilePath)        // `pd.read_csv` of a missing file
    | AggregationFailed(zones: FilePath)   // the zonal statistics engine fails
    | ColumnNotFound(column: string)       // a column label is absent (KeyError)
    | AmbiguousColumn(column: string)      // a column label names several columns
    | UnsortableColumn(column: string)     // a column holds values that cannot be compared

  datatype Option<+T> = None | Some(value: T)

  datatype Result<+T> = Success(value: T) | Failure(error: Error)

  function Min(a: int, b: int): int
  {
    if a <= b then a else b
  }
}
