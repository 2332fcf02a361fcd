/** What the Docker engine reports, as far as deletions look at it. */
module Docker {
  import opened Options
  import opened Paths

  datatype Mount = Mount(kind: string, source: Path, destination: Path, name: string)

  /** `project`, `workingDir` and `configFiles` are the Compose labels; an absent label reads as
      the empty string, None and the empty list. */
  datatype Container = Container(
    id: string, names: string, image: string, imageId: string, state: string,
    project: string, workingDir: Option<Path>, configFiles: seq<Path>, mounts: seq<Mount>)

  datatype Volume = Volume(name: string, project: string)

  datatype Network = Network(name: string, project: string)

  datatype Image = Image(id: string, repository: string, tag: string, digest: string)

  datatype Resources = Resources(containers: seq<Container>, volumes: seq<Volume>, networks: seq<Network>)
}
