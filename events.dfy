/**
 * The observable effects of the docker-build command. File-system and process
 * operations are not performed by the model; each one is recorded as an event
 * in the order the command would perform it.
 */
module Events {
  import opened BuildFiles

  datatype Event =
    /** The composer executable is copied into the build directory. */
    | CopyComposerPhar
    /** The images directory is missing: a hint is printed and the process exits. */
    | Exit
    /** Reading `.posignore` stopped before its end. */
    | IgnoreReadError
    /** Dry run: the remote of a project is listed instead of checked out. */
    | LsRemote(url: string)
    /** The project directory exists: its latest commits are pulled. */
    | Pull(name: string)
    /** The project is cloned, with its submodules, into its directory. */
    | Clone(url: string, name: string)
    /** Building a single image is not supported: nothing is built. */
    | Unsupported
    /** An asset of an image is copied into the build context. */
    | CopyAsset(image: string, asset: string)
    /** The Dockerfile rendered from a descriptor is written. */
    | WriteDockerfile(build: Descriptor)
    /** The working directory becomes the build directory. */
    | EnterBuildDir
    /** `docker build` of an image. */
    | DockerBuild(image: string)
    /** `docker save` of an image into an archive. */
    | DockerSave(tar: string, image: string)
    /** The archive is moved to the builds directory. */
    | MoveTar(tar: string)
    /** The working directory becomes the project root again. */
    | ReturnToRoot
    /** The Dockerfile, if written, and the copied assets are removed. */
    | Cleanup
    /** The images depend on each other in a cycle, so no build order exists. */
    | CyclicDependency
}
